/** The tickets controller's actions over an in-memory store that stands for
    the database: a map from ticket id to the ticket row with its comments,
    and the next identity values the store would hand out. Each action is
    one atomic lookup-then-write; the current time is a parameter. */
module Controller {
  import opened Tickets
  import opened TicketQuery

  /** What an action answers: a value, NotFound, the form shown again with
      the model-state errors, or SaveFailed when the database refuses a null
      in a required column, so that SaveChangesAsync throws, the request ends
      in a server error and nothing is stored. */
  datatype Outcome<T> = Ok(value: T) | NotFound | Invalid(errors: seq<Violation>) | SaveFailed

  /** A stored row is filed under its own id, below the next identity value,
      and each of its comments points back at it and has an id already
      handed out. */
  predicate StoredUnder(t: Ticket, id: int, nextId: int, nextCommentId: int) {
    && 0 < id < nextId
    && t.id == id
    && forall i :: 0 <= i < |t.comments| ==>
         t.comments[i].ticketId == id && 0 < t.comments[i].id < nextCommentId
  }

  /** The rows filed under the ids of `ids`. */
  function Stored(m: map<int, Ticket>, ids: set<int>): set<Ticket> {
    set id | id in ids && id in m :: m[id]
  }

  /** Filing one more id adds exactly that row, once: rows filed under
      different ids differ, since each carries its own id. */
  lemma StoredGrows(m: map<int, Ticket>, done: set<int>, id: int)
    requires forall k :: k in m ==> m[k].id == k
    requires id in m && id !in done
    ensures multiset(Stored(m, done + {id})) == multiset(Stored(m, done)) + multiset{m[id]}
  {
    var before := Stored(m, done);
    assert m[id] !in before;
    assert Stored(m, done + {id}) == before + {m[id]};
  }

  /** A non-empty set has a member. */
  lemma SomeMember<T>(s: set<T>) returns (x: T)
    requires s != {}
    ensures x in s
  {
    x :| x in s;
  }

  class TicketsController {
    /** The Tickets table with each row's Comments, keyed by id. */
    var tickets: map<int, Ticket>
    /** The identity value the next inserted ticket receives. */
    var nextId: int
    /** The identity value the next inserted comment receives. */
    var nextCommentId: int

    ghost predicate Valid()
      reads this
    {
      && 0 < nextId
      && 0 < nextCommentId
      && forall id :: id in tickets ==> StoredUnder(tickets[id], id, nextId, nextCommentId)
    }

    /** An empty store. */
    constructor ()
      ensures Valid()
      ensures tickets == map[] && nextId == 1 && nextCommentId == 1
    {
      tickets := map[];
      nextId := 1;
      nextCommentId := 1;
    }

    /** Reads every stored row, with its comments, into a list. */
    method Rows() returns (rows: seq<Ticket>)
      requires Valid()
      ensures multiset(rows) == multiset(tickets.Values)
    {
      rows := [];
      var pending := tickets.Keys;
      while pending != {}
        invariant pending <= tickets.Keys
        invariant multiset(rows) == multiset(Stored(tickets, tickets.Keys - pending))
        decreases |pending|
      {
        ghost var some := SomeMember(pending);
        var id :| id in pending;
        StoredGrows(tickets, tickets.Keys - pending, id);
        assert tickets.Keys - (pending - {id}) == (tickets.Keys - pending) + {id};
        rows := rows + [tickets[id]];
        pending := pending - {id};
      }
      assert Stored(tickets, tickets.Keys) == tickets.Values by {
        forall t | t in tickets.Values ensures t in Stored(tickets, tickets.Keys) {
          var id := KeyOf(tickets, t);
        }
      }
    }

    /** GET Tickets: the stored tickets that pass every non-empty filter,
        each exactly once, newest first. */
    method Index(searchString: string, statusFilter: string, priorityFilter: string)
      returns (list: seq<Ticket>)
      requires Valid()
      ensures multiset(list) == multiset(Select(tickets, searchString, statusFilter, priorityFilter))
      ensures NewestFirst(list)
    {
      var query := Rows();
      if searchString != "" {
        query := Where(query, (t: Ticket) => SearchMatches(t, searchString));
      }
      if statusFilter != "" {
        query := Where(query, (t: Ticket) => t.status == statusFilter);
      }
      if priorityFilter != "" {
        query := Where(query, (t: Ticket) => t.priority == priorityFilter);
      }
      list := OrderByCreatedAtDescending(query);
      forall t ensures multiset(list)[t] ==
        multiset(Select(tickets, searchString, statusFilter, priorityFilter))[t]
      {
        SelectIsFilteredValues(tickets, searchString, statusFilter, priorityFilter, t);
      }
    }

    /** GET Tickets/Details/5: the ticket whose Id is `id`, with its
        comments, or NotFound. */
    method Details(id: int) returns (r: Outcome<Ticket>)
      requires Valid()
      ensures r.Ok? || r.NotFound?
      ensures r.Ok? <==> exists k :: k in tickets && tickets[k].id == id
      ensures r.Ok? ==> r.value in tickets.Values && r.value.id == id
    {
      if id in tickets {
        r := Ok(tickets[id]);
      } else {
        r := NotFound;
      }
    }

    /** FindAsync by primary key, as the Edit and Delete pages do before
        showing their forms: the row without its comments, or NotFound. */
    method Find(id: int) returns (r: Outcome<Ticket>)
      requires Valid()
      ensures r.Ok? || r.NotFound?
      ensures r.Ok? <==> id in tickets
      ensures r.Ok? ==> r.value.id == id && r.value.comments == []
      ensures r.Ok? ==> r.value.(comments := tickets[id].comments) == tickets[id]
    {
      if id in tickets {
        r := Ok(tickets[id].(comments := []));
      } else {
        r := NotFound;
      }
    }

    /** Whether some stored row has Id `id`. */
    function TicketExists(id: int): (b: bool)
      requires Valid()
      reads this
      ensures b <==> exists k :: k in tickets && tickets[k].id == id
    {
      id in tickets
    }

    /** POST Tickets/Create: an invalid ticket is sent back with its errors
        and nothing is stored; a valid one is stamped with `now` and stored
        under the next identity value, the other rows untouched. */
    method Create(ticket: Ticket, now: int) returns (r: Outcome<int>)
      requires Valid()
      modifies this
      ensures Valid()
      ensures r.Ok? || r.Invalid?
      ensures r.Invalid? <==> !IsValid(ticket)
      ensures r.Invalid? ==>
        r.errors == Validate(ticket) && tickets == old(tickets) && nextId == old(nextId)
      ensures r.Ok? ==>
        && r.value == old(nextId)
        && r.value !in old(tickets)
        && tickets == old(tickets)[r.value := ticket.(id := r.value, createdAt := now, comments := [])]
        && nextId == old(nextId) + 1
      ensures nextCommentId == old(nextCommentId)
    {
      var errors := Validate(ticket);
      if errors != [] {
        return Invalid(errors);
      }
      var id := nextId;
      tickets := tickets[id := ticket.(id := id, createdAt := now, comments := [])];
      nextId := nextId + 1;
      r := Ok(id);
    }

    /** POST Tickets/Edit/5: NotFound when the path id differs from the
        posted one; the form again when the posted ticket is invalid. A valid
        ticket with UpdatedAt set to `now` is then handed to Update, which
        treats the unset id 0 as a new row and inserts it under the next
        identity value. For any other id, NotFound when no row has it;
        otherwise the row takes every posted field and keeps its comments. */
    method Edit(id: int, ticket: Ticket, now: int) returns (r: Outcome<()>)
      requires Valid()
      modifies this
      ensures Valid()
      ensures id != ticket.id ==> r == NotFound && tickets == old(tickets)
      ensures id == ticket.id && !IsValid(ticket) ==>
        r == Invalid(Validate(ticket)) && tickets == old(tickets)
      ensures id == ticket.id && IsValid(ticket) && id == 0 ==>
        && r == Ok(())
        && old(nextId) !in old(tickets)
        && tickets == old(tickets)[old(nextId) :=
             ticket.(id := old(nextId), updatedAt := Some(now), comments := [])]
        && nextId == old(nextId) + 1
      ensures id == ticket.id && IsValid(ticket) && id != 0 && id !in old(tickets) ==>
        r == NotFound && tickets == old(tickets)
      ensures id == ticket.id && IsValid(ticket) && id in old(tickets) ==>
        && r == Ok(())
        && tickets == old(tickets)[id := ticket.(updatedAt := Some(now), comments := old(tickets)[id].comments)]
      ensures r != Ok(()) || id != 0 ==> nextId == old(nextId)
      ensures nextCommentId == old(nextCommentId)
    {
      if id != ticket.id {
        return NotFound;
      }
      var errors := Validate(ticket);
      if errors != [] {
        return Invalid(errors);
      }
      if id == 0 {
        var newId := nextId;
        tickets := tickets[newId := ticket.(id := newId, updatedAt := Some(now), comments := [])];
        nextId := nextId + 1;
        return Ok(());
      }
      if !TicketExists(ticket.id) {
        // The update touched no row; the store reports a concurrency
        // conflict, and the ticket is indeed gone.
        return NotFound;
      }
      var stored := ticket.(updatedAt := Some(now), comments := tickets[id].comments);
      tickets := tickets[id := stored];
      r := Ok(());
    }

    /** POST Tickets/Delete/5: removes the ticket and, with it, its comments;
        an absent id is a successful no-op. */
    method DeleteConfirmed(id: int)
      requires Valid()
      modifies this
      ensures Valid()
      ensures tickets == old(tickets) - {id}
      ensures forall k :: k in tickets ==>
        forall i :: 0 <= i < |tickets[k].comments| ==> tickets[k].comments[i].ticketId != id
      ensures nextId == old(nextId) && nextCommentId == old(nextCommentId)
    {
      if id in tickets {
        tickets := tickets - {id};
      }
    }

    /** POST AddComment: NotFound when no ticket has id `ticketId`. A blank
        content or author binds as null, which the empty string stands for
        here; Comment declares both [Required], so their columns refuse null
        and the save fails. Otherwise one comment with a fresh id, the given
        content and author, and CreatedAt `now` is appended to that ticket's
        comments. */
    method AddComment(ticketId: int, content: string, author: string, now: int)
      returns (r: Outcome<()>)
      requires Valid()
      modifies this
      ensures Valid()
      ensures r.Ok? || r.NotFound? || r.SaveFailed?
      ensures r.NotFound? <==> ticketId !in old(tickets)
      ensures r.SaveFailed? <==> ticketId in old(tickets) && (content == "" || author == "")
      ensures !r.Ok? ==> tickets == old(tickets) && nextCommentId == old(nextCommentId)
      ensures r.Ok? ==>
        var c := Comment(old(nextCommentId), content, author, now, ticketId);
        && tickets == old(tickets)[ticketId := old(tickets)[ticketId].(
             comments := old(tickets)[ticketId].comments + [c])]
        && nextCommentId == old(nextCommentId) + 1
      ensures r.Ok? ==> forall k :: k in old(tickets) ==>
        forall i :: 0 <= i < |old(tickets)[k].comments| ==>
          old(tickets)[k].comments[i].id != old(nextCommentId)
      ensures nextId == old(nextId)
    {
      if ticketId !in tickets {
        return NotFound;
      }
      if content == "" || author == "" {
        return SaveFailed;
      }
      var comment := Comment(nextCommentId, content, author, now, ticketId);
      var t := tickets[ticketId];
      tickets := tickets[ticketId := t.(comments := t.comments + [comment])];
      nextCommentId := nextCommentId + 1;
      r := Ok(());
    }

    /** POST UpdateStatus: NotFound when no ticket has id `id`. A blank status
        binds as null, which the empty string stands for here; Status is
        [Required], so its column refuses null and the save fails. Otherwise
        Status becomes `status`, whatever other string it is, and UpdatedAt
        becomes `now`; nothing else changes. */
    method UpdateStatus(id: int, status: string, now: int) returns (r: Outcome<()>)
      requires Valid()
      modifies this
      ensures Valid()
      ensures r.Ok? || r.NotFound? || r.SaveFailed?
      ensures r.NotFound? <==> id !in old(tickets)
      ensures r.SaveFailed? <==> id in old(tickets) && status == ""
      ensures !r.Ok? ==> tickets == old(tickets)
      ensures r.Ok? ==>
        tickets == old(tickets)[id := old(tickets)[id].(status := status, updatedAt := Some(now))]
      ensures nextId == old(nextId) && nextCommentId == old(nextCommentId)
    {
      if id !in tickets {
        return NotFound;
      }
      if status == "" {
        return SaveFailed;
      }
      var t := tickets[id];
      tickets := tickets[id := t.(status := status, updatedAt := Some(now))];
      r := Ok(());
    }
  }

  /** A ticket is created, then resolved: it gets an id, its CreatedAt, no
      UpdatedAt; resolving sets Status and an UpdatedAt no earlier than
      CreatedAt, and the status filter then lists it. */
  method CreateThenResolve()
  {
    var store := new TicketsController();
    var payload := DefaultTicket(0).(
      title := "Login broken", description := "Cannot log in",
      priority := "High", status := "Open", email := Some("a@b.com"));
    LoginBrokenIsValid(payload);
    var created := store.Create(payload, 100);
    var id := created.value;
    assert store.tickets[id].createdAt == 100 && store.tickets[id].updatedAt == None;
    var resolved := store.UpdateStatus(id, "Resolved", 250);
    assert resolved.Ok?;
    var row := store.tickets[id];
    assert row.status == "Resolved" && row.updatedAt == Some(250) && row.createdAt == 100;
    var list := store.Index("", "Resolved", "");
    assert row in multiset(list) by {
      SelectIsFilteredValues(store.tickets, "", "Resolved", "", row);
    }
  }

  /** Identity values are never handed out twice: a ticket created after
      another was deleted does not take over the deleted ticket's id. */
  method DeletedIdIsNotReused()
  {
    var store := new TicketsController();
    var payload := DefaultTicket(0).(
      title := "Login broken", description := "Cannot log in",
      priority := "High", status := "Open", email := Some("a@b.com"));
    LoginBrokenIsValid(payload);
    var first := store.Create(payload, 100);
    store.DeleteConfirmed(first.value);
    var second := store.Create(payload, 200);
    assert second.value != first.value;
    assert first.value !in store.tickets;
  }
}
