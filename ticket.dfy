/** The Ticket and Comment entities, the validation rules declared on
    Ticket's properties, and the two badge-class display helpers. */
module Tickets {
  import opened Text

  datatype Option<T> = None | Some(value: T)

  /** A comment row. Timestamps are plain integers supplied by the caller. */
  datatype Comment = Comment(
    id: int,
    content: string,
    author: string,
    createdAt: int,
    ticketId: int)

  /** A ticket row together with the comments loaded with it. Priority and
      Status are free strings: nothing restricts them to the listed values.
      Email is None when it is null; see the validation section below. */
  datatype Ticket = Ticket(
    id: int,
    title: string,
    description: string,
    priority: string,
    status: string,
    email: Option<string>,
    createdAt: int,
    updatedAt: Option<int>,
    comments: seq<Comment>)

  const TitleMaxLength := 100
  const DescriptionMaxLength := 1000

  /** A freshly constructed Ticket, whose Title, Description and Email start
      as the empty string; `now` is the clock reading its CreatedAt
      initialiser takes. */
  function DefaultTicket(now: int): Ticket {
    Ticket(0, "", "", "Medium", "Open", Some(""), now, None, [])
  }

  // ---------------------------------------------------------------------
  // Validation. A blank form field reaches the model as null, a field the
  // form leaves out keeps its initial value. [Required] rejects both null
  // and a blank string, and [StringLength] lets both through, so for Title,
  // Description, Priority and Status the empty string stands for null too.
  // [EmailAddress] lets null through but rejects the empty string, so Email
  // keeps the two apart: None is null, Some("") the empty string.

  /** [Required] on a string property. */
  predicate RequiredOk(s: string) {
    !IsBlank(s)
  }

  /** [StringLength(max)] with the default minimum of zero. */
  predicate StringLengthOk(s: string, max: nat) {
    |s| <= max
  }

  /** [Required] on a property that may hold null. */
  predicate RequiredPresent(s: Option<string>) {
    s.Some? && RequiredOk(s.value)
  }

  /** [EmailAddress]: null passes; otherwise the value must hold exactly one
      '@', and that '@' is neither the first nor the last character. */
  predicate EmailAddressOk(s: Option<string>) {
    || s.None?
    || (&& 0 < |s.value|
        && multiset(s.value)['@'] == 1
        && s.value[0] != '@'
        && s.value[|s.value| - 1] != '@')
  }

  /** One validation attribute of one property, in declaration order. */
  datatype Violation =
    | TitleRequired
    | TitleTooLong
    | DescriptionRequired
    | DescriptionTooLong
    | PriorityRequired
    | StatusRequired
    | EmailRequired
    | EmailInvalid

  /** Every attribute, in the order the properties declare them. */
  const Attributes: seq<Violation> := [
    TitleRequired, TitleTooLong, DescriptionRequired, DescriptionTooLong,
    PriorityRequired, StatusRequired, EmailRequired, EmailInvalid]

  /** The position of an attribute in declaration order. */
  function Rank(v: Violation): (n: nat)
    ensures n < |Attributes| && Attributes[n] == v
  {
    match v
    case TitleRequired => 0
    case TitleTooLong => 1
    case DescriptionRequired => 2
    case DescriptionTooLong => 3
    case PriorityRequired => 4
    case StatusRequired => 5
    case EmailRequired => 6
    case EmailInvalid => 7
  }

  /** Each attribute at most once, in declaration order. */
  predicate InDeclarationOrder(vs: seq<Violation>) {
    forall i, j :: 0 <= i < j < |vs| ==> Rank(vs[i]) < Rank(vs[j])
  }

  /** The error message each attribute declares. */
  function Message(v: Violation): string {
    match v
    case TitleRequired => "Title is required"
    case TitleTooLong => "Title cannot exceed 100 characters"
    case DescriptionRequired => "Description is required"
    case DescriptionTooLong => "Description cannot exceed 1000 characters"
    case PriorityRequired => "Please select a priority"
    case StatusRequired => "Please select a status"
    case EmailRequired => "Please enter your email"
    case EmailInvalid => "Invalid email address"
  }

  /** Whether ticket `t` fails attribute `v`. */
  predicate Fails(t: Ticket, v: Violation) {
    match v
    case TitleRequired => !RequiredOk(t.title)
    case TitleTooLong => !StringLengthOk(t.title, TitleMaxLength)
    case DescriptionRequired => !RequiredOk(t.description)
    case DescriptionTooLong => !StringLengthOk(t.description, DescriptionMaxLength)
    case PriorityRequired => !RequiredOk(t.priority)
    case StatusRequired => !RequiredOk(t.status)
    case EmailRequired => !RequiredPresent(t.email)
    case EmailInvalid => !EmailAddressOk(t.email)
  }

  /** The attributes of `attrs` that `t` fails, keeping their order. */
  function Failing(t: Ticket, attrs: seq<Violation>): (errors: seq<Violation>)
    ensures forall v :: v in errors <==> v in attrs && Fails(t, v)
    ensures |errors| <= |attrs|
    ensures InDeclarationOrder(attrs) ==> InDeclarationOrder(errors)
  {
    if attrs == [] then []
    else
      var rest := Failing(t, attrs[1..]);
      assert InDeclarationOrder(attrs) ==> InDeclarationOrder([attrs[0]] + rest) by {
        if InDeclarationOrder(attrs) {
          OrderedAfterHead(attrs, rest);
          OrderedCons(attrs[0], rest);
        }
      }
      (if Fails(t, attrs[0]) then [attrs[0]] else []) + rest
  }

  /** In an ordered list, whatever is drawn from the tail ranks after the
      head. */
  lemma OrderedAfterHead(attrs: seq<Violation>, rest: seq<Violation>)
    requires attrs != [] && InDeclarationOrder(attrs)
    requires forall v :: v in rest ==> v in attrs[1..]
    ensures InDeclarationOrder(attrs[1..])
    ensures forall v :: v in rest ==> Rank(attrs[0]) < Rank(v)
  {
    forall v | v in rest ensures Rank(attrs[0]) < Rank(v) {
      var k :| 0 <= k < |attrs[1..]| && attrs[1..][k] == v;
      assert attrs[k + 1] == v;
    }
  }

  /** An attribute ranked before every member of an ordered list may lead it. */
  lemma OrderedCons(v: Violation, rest: seq<Violation>)
    requires InDeclarationOrder(rest)
    requires forall x :: x in rest ==> Rank(v) < Rank(x)
    ensures InDeclarationOrder([v] + rest)
  {
    forall i, j | 0 <= i < j < |[v] + rest| ensures Rank(([v] + rest)[i]) < Rank(([v] + rest)[j]) {
      assert ([v] + rest)[j] == rest[j - 1];
      if i > 0 {
        assert ([v] + rest)[i] == rest[i - 1];
      }
    }
  }

  /** Attributes lists every attribute. */
  lemma AttributesComplete(v: Violation)
    ensures v in Attributes
  {
    match v
    case TitleRequired => assert Attributes[0] == v;
    case TitleTooLong => assert Attributes[1] == v;
    case DescriptionRequired => assert Attributes[2] == v;
    case DescriptionTooLong => assert Attributes[3] == v;
    case PriorityRequired => assert Attributes[4] == v;
    case StatusRequired => assert Attributes[5] == v;
    case EmailRequired => assert Attributes[6] == v;
    case EmailInvalid => assert Attributes[7] == v;
  }

  /** The model-state errors of a bound ticket: exactly the attributes it
      fails, each once, in declaration order. */
  function Validate(t: Ticket): (errors: seq<Violation>)
    ensures forall v :: v in errors <==> Fails(t, v)
    ensures InDeclarationOrder(errors)
    ensures |errors| <= 8
  {
    assert InDeclarationOrder(Attributes);
    var errors := Failing(t, Attributes);
    assert forall v :: Fails(t, v) ==> v in errors by {
      forall v | Fails(t, v) ensures v in errors {
        AttributesComplete(v);
      }
    }
    errors
  }

  /** ModelState.IsValid for a bound ticket. */
  predicate IsValid(t: Ticket) {
    Validate(t) == []
  }

  /** A ticket is valid exactly when every declared constraint holds: Title
      present and at most 100 characters, Description present and at most
      1000, Priority and Status present, Email present and well formed. */
  lemma ValidIff(t: Ticket)
    ensures IsValid(t) <==>
      && RequiredOk(t.title) && |t.title| <= 100
      && RequiredOk(t.description) && |t.description| <= 1000
      && RequiredOk(t.priority)
      && RequiredOk(t.status)
      && RequiredPresent(t.email) && EmailAddressOk(t.email)
  {
    if !IsValid(t) {
      assert Fails(t, Validate(t)[0]);
    } else {
      forall v ensures !Fails(t, v) {
        assert v !in Validate(t);
      }
      assert !Fails(t, TitleRequired) && !Fails(t, TitleTooLong);
      assert !Fails(t, DescriptionRequired) && !Fails(t, DescriptionTooLong);
      assert !Fails(t, PriorityRequired) && !Fails(t, StatusRequired);
      assert !Fails(t, EmailRequired) && !Fails(t, EmailInvalid);
    }
  }

  /** Priority and Status are not restricted to their listed values: any
      non-blank string passes, and validity does not depend on them further. */
  lemma PriorityAndStatusUnrestricted(t: Ticket, priority: string, status: string)
    requires RequiredOk(priority) && RequiredOk(status)
    ensures IsValid(t.(priority := priority, status := status)) <==>
      IsValid(t.(priority := "Medium", status := "Open"))
  {
    assert RequiredOk("Medium") by { assert !IsWhiteSpace("Medium"[0]); }
    assert RequiredOk("Open") by { assert !IsWhiteSpace("Open"[0]); }
    ValidIff(t.(priority := priority, status := status));
    ValidIff(t.(priority := "Medium", status := "Open"));
  }

  /** A default ticket has Priority "Medium", Status "Open", no UpdatedAt
      and no comments. It fails validation on its three empty required
      fields, Title, Description and Email, and on Email's format, since the
      empty string is not null. */
  lemma DefaultTicketViolations(now: int)
    ensures DefaultTicket(now).priority == "Medium" && DefaultTicket(now).status == "Open"
    ensures DefaultTicket(now).updatedAt == None && DefaultTicket(now).comments == []
    ensures DefaultTicket(now).createdAt == now
    ensures forall v :: v in Validate(DefaultTicket(now)) <==>
      v in {TitleRequired, DescriptionRequired, EmailRequired, EmailInvalid}
    ensures !IsValid(DefaultTicket(now))
  {
    var t := DefaultTicket(now);
    assert !IsWhiteSpace(t.priority[0]) && !IsWhiteSpace(t.status[0]);
    assert Fails(t, TitleRequired);
  }

  /** A filled-in ticket with a listed priority and status passes
      validation, whatever its id, timestamps and comments. */
  lemma LoginBrokenIsValid(t: Ticket)
    requires t.title == "Login broken" && t.description == "Cannot log in"
    requires t.priority == "High" && t.status == "Open" && t.email == Some("a@b.com")
    ensures IsValid(t)
  {
    assert RequiredOk(t.title) by { assert !IsWhiteSpace(t.title[0]); }
    assert RequiredOk(t.description) by { assert !IsWhiteSpace(t.description[0]); }
    assert RequiredOk(t.priority) by { assert !IsWhiteSpace(t.priority[0]); }
    assert RequiredOk(t.status) by { assert !IsWhiteSpace(t.status[0]); }
    assert RequiredOk(t.email.value) by { assert !IsWhiteSpace(t.email.value[0]); }
    assert EmailAddressOk(t.email) by { assert multiset(t.email.value)['@'] == 1; }
    ValidIff(t);
  }

  // ---------------------------------------------------------------------
  // Badge classes, chosen by the lower-cased Priority or Status.

  /** The CSS class of a priority badge. */
  function PriorityClass(priority: string): (cls: string)
    ensures |cls| >= 6 && cls[..6] == "badge "
    ensures cls == "badge bg-success" <==> ToLower(priority) == "low"
    ensures cls == "badge bg-warning" <==> ToLower(priority) == "medium"
    ensures cls == "badge bg-danger" <==> ToLower(priority) == "high"
    ensures cls == "badge bg-dark" <==> ToLower(priority) == "critical"
    ensures cls == "badge bg-secondary" <==>
      ToLower(priority) !in {"low", "medium", "high", "critical"}
  {
    var key := ToLower(priority);
    if key == "low" then "badge bg-success"
    else if key == "medium" then "badge bg-warning"
    else if key == "high" then "badge bg-danger"
    else if key == "critical" then "badge bg-dark"
    else "badge bg-secondary"
  }

  /** The CSS class of a status badge; "closed" shares the fallback class. */
  function StatusClass(status: string): (cls: string)
    ensures |cls| >= 6 && cls[..6] == "badge "
    ensures cls == "badge bg-primary" <==> ToLower(status) == "open"
    ensures cls == "badge bg-info" <==> ToLower(status) == "in progress"
    ensures cls == "badge bg-success" <==> ToLower(status) == "resolved"
    ensures cls == "badge bg-secondary" <==>
      ToLower(status) !in {"open", "in progress", "resolved"}
  {
    var key := ToLower(status);
    if key == "open" then "badge bg-primary"
    else if key == "in progress" then "badge bg-info"
    else if key == "resolved" then "badge bg-success"
    else if key == "closed" then "badge bg-secondary"
    else "badge bg-secondary"
  }

  /** The priority badge sees only the lower-cased value: lower-casing the
      input first changes nothing, and inputs equal up to case agree. */
  lemma PriorityClassIgnoresCase(a: string, b: string)
    requires ToLower(a) == ToLower(b)
    ensures PriorityClass(ToLower(a)) == PriorityClass(a)
    ensures PriorityClass(a) == PriorityClass(b)
  {
    ToLowerIdempotent(a);
  }

  /** The status badge sees only the lower-cased value, likewise. */
  lemma StatusClassIgnoresCase(a: string, b: string)
    requires ToLower(a) == ToLower(b)
    ensures StatusClass(ToLower(a)) == StatusClass(a)
    ensures StatusClass(a) == StatusClass(b)
  {
    ToLowerIdempotent(a);
  }

  /** The listed priorities, spelled as the forms spell them, get their own
      badges. */
  lemma ListedPriorityBadges()
    ensures PriorityClass("Low") == "badge bg-success"
    ensures PriorityClass("Medium") == "badge bg-warning"
    ensures PriorityClass("High") == "badge bg-danger"
    ensures PriorityClass("Critical") == "badge bg-dark"
  {
    assert ToLower("Low") == "low";
    assert ToLower("Medium") == "medium";
    assert ToLower("High") == "high";
    assert ToLower("Critical") == "critical";
  }

  /** The listed statuses, spelled as the forms spell them; "Closed" gets
      the same class as an unknown status. */
  lemma ListedStatusBadges()
    ensures StatusClass("Open") == "badge bg-primary"
    ensures StatusClass("In Progress") == "badge bg-info"
    ensures StatusClass("Resolved") == "badge bg-success"
    ensures StatusClass("Closed") == "badge bg-secondary"
  {
    assert ToLower("Open") == "open";
    assert ToLower("In Progress") == "in progress";
    assert ToLower("Resolved") == "resolved";
    assert ToLower("Closed") == "closed";
  }
}
