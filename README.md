# Ticket support system: a Dafny model of the ticket controller

The system is a small web application for support tickets. Users can create, list, filter, edit and delete tickets, attach comments to them and change their status. This project models two parts of it:

- the `TicketsController` actions, over an in-memory store that stands for the database;
- the `Ticket` entity: its fields and defaults, the validation rules declared on its properties, and the two badge-class helpers.

The project has four modules, one file each:

- `text.dfy` (`Text`): the parts of the .NET string library that the code relies on. These are white-space tests for `[Required]`, lower-casing for the badge classes, and ordinal substring search for the search box. `Contains` is defined by scanning, and a lemma ties it to the slice definition of a substring.
- `ticket.dfy` (`Tickets`): the `Ticket` and `Comment` records, and `DefaultTicket`.
  - Validation is the list of failed attributes (`Validate`). Each attribute keeps its own error message. `IsValid` stands for `ModelState.IsValid`.
  - Also here: `PriorityClass`, `StatusClass`, and lemmas about both.
- `ticket_query.dfy` (`TicketQuery`): the listing query.
  - The filter predicate is `Matches`, and the set of stored tickets it selects is `Select`.
  - LINQ's `Where` becomes a function on sequences.
  - `OrderByDescending(t => t.CreatedAt)` becomes an insertion sort whose result is proved newest-first and a permutation of its input.
- `tickets_controller.dfy` (`Controller`): the class `TicketsController`. Its fields are:
  - a map from ticket id to the ticket row, each row with its comments;
  - the next ticket identity value;
  - the next comment identity value.

  Every action is a method. `Index` rebuilds its query step by step, as the source does. The state-changing actions state the whole new store in terms of the old one. `Valid()` is the store invariant and every action preserves it:
  - each row is filed under its own id;
  - each id is below the next identity value;
  - every comment of a ticket points back at that ticket and has an id already handed out.

  A client method, `CreateThenResolve`, creates a ticket, resolves it, and lists it by status, using only the actions' contracts.

The clock becomes an integer `now` argument. A string field left blank on a form reaches the model as null, while a field the form leaves out keeps its initial value, which for Title, Description and Email is the empty string. `[Required]` rejects both null and a blank string, and `[StringLength]` accepts both. So for Title, Description, Priority and Status the empty string stands for null too. `[EmailAddress]` accepts null but rejects the empty string, so Email is an `Option<string>`: `None` is null and `Some("")` is the empty string. The string parameters of `AddComment` and `UpdateStatus` are never bound to the empty string, so there the empty string stands for null.

Where the design description and the code disagree, the model follows the code:
- `Edit` stores the posted ticket wholesale, including whatever `CreatedAt` the form posts, so `CreatedAt` is not proved constant across edits.
- Priority and Status accept any non-blank string. No attribute restricts them to the listed values, and `UpdateStatus` stores any non-null string without validation.
- `Edit` validates before it looks the ticket up. An invalid payload for an absent id therefore gets the form back with its errors, not NotFound.

## Model

| member | source | states |
|---|---|---|
| `Text.ToLower` | TicketSupportSystem/Models/Ticket.cs:39 | Lower-casing keeps the length, maps each character through ASCII lower-casing, and leaves no upper-case ASCII letter |
| `Text.ToLowerIdempotent` | TicketSupportSystem/Models/Ticket.cs:39-55 | Lower-casing an already lower-cased string changes nothing |
| `Text.ContainsIffOccurs` | TicketSupportSystem/Controllers/TicketController.cs:25-27 | `Contains(s, sub)` holds exactly when some slice `s[i..i+|sub|]` equals `sub`, in both directions |
| `Text.ContainsEmpty` | TicketSupportSystem/Controllers/TicketController.cs:22 | Every string contains the empty string, so an empty search would match every ticket; the action skips it instead |
| `Tickets.Validate` | TicketSupportSystem/Models/Ticket.cs:11-27 | The model-state errors list an attribute exactly when the ticket fails it, each at most once and in declaration order. The attributes are Title required and at most 100 characters, Description required and at most 1000, Priority required, Status required, Email required and in email form |
| `Tickets.ValidIff` | TicketSupportSystem/Models/Ticket.cs:11-27 | A ticket is valid exactly when all declared constraints hold: Title present and at most 100 characters, Description present and at most 1000, Priority and Status present, Email present and well formed |
| `Tickets.PriorityAndStatusUnrestricted` | TicketSupportSystem/Models/Ticket.cs:19-23 | Any non-blank Priority and Status give the same validity as "Medium" and "Open"; nothing restricts them to the listed values |
| `Tickets.DefaultTicketViolations` | TicketSupportSystem/Models/Ticket.cs:13-36 | A default ticket has Priority "Medium", Status "Open", CreatedAt the construction time, no UpdatedAt and no comments. It fails exactly Title, Description and Email required and the email format, because its Email is the empty string and not null, so it is invalid |
| `Tickets.LoginBrokenIsValid` | TicketSupportSystem/Models/Ticket.cs:11-27 | A ticket titled "Login broken" with description "Cannot log in", priority "High", status "Open" and email "a@b.com" is valid, whatever its other fields |
| `Tickets.PriorityClass` | TicketSupportSystem/Models/Ticket.cs:39-46 | Every class starts with "badge ". The lower-cased priorities "low", "medium", "high" and "critical" get bg-success, bg-warning, bg-danger and bg-dark, each class for that value only; every other value gets bg-secondary |
| `Tickets.StatusClass` | TicketSupportSystem/Models/Ticket.cs:48-55 | Every class starts with "badge ". The lower-cased statuses "open", "in progress" and "resolved" get bg-primary, bg-info and bg-success, each for that value only; "closed" and every other value get bg-secondary |
| `Tickets.PriorityClassIgnoresCase` | TicketSupportSystem/Models/Ticket.cs:39-46 | The priority class depends only on the lower-cased value: priorities equal up to case get the same class, as does the lower-cased priority itself |
| `Tickets.StatusClassIgnoresCase` | TicketSupportSystem/Models/Ticket.cs:48-55 | The status class depends only on the lower-cased value: statuses equal up to case get the same class, as does the lower-cased status itself |
| `Tickets.ListedPriorityBadges` | TicketSupportSystem/Models/Ticket.cs:39-46 | The listed priorities "Low", "Medium", "High" and "Critical", capitalised as the forms send them, get success, warning, danger and dark badges |
| `Tickets.ListedStatusBadges` | TicketSupportSystem/Models/Ticket.cs:48-55 | The listed statuses "Open", "In Progress" and "Resolved" get primary, info and success badges; "Closed" gets the fallback secondary badge |
| `TicketQuery.Where` | TicketSupportSystem/Controllers/TicketController.cs:24-39 | Filtering keeps each element that satisfies the predicate exactly as often as it occurs, and drops every other element |
| `TicketQuery.Insert` | TicketSupportSystem/Controllers/TicketController.cs:47 | Inserting a ticket into a newest-first list gives a newest-first list with exactly that ticket added |
| `TicketQuery.OrderByCreatedAtDescending` | TicketSupportSystem/Controllers/TicketController.cs:47 | Ordering gives a permutation of the input in which CreatedAt never increases |
| `TicketQuery.SelectIsFilteredValues` | TicketSupportSystem/Controllers/TicketController.cs:19-40 | The listing's set is exactly the stored tickets that pass every non-empty filter |
| `TicketQuery.UnfilteredSelectsAll` | TicketSupportSystem/Controllers/TicketController.cs:19-40 | With search, status and priority all empty, the listing's set is every stored ticket |
| `TicketQuery.FiltersCombineByAnd` | TicketSupportSystem/Controllers/TicketController.cs:22-40 | The listing's set is the intersection of the sets each filter selects on its own |
| `TicketQuery.SearchIsSubstringOfAnyField` | TicketSupportSystem/Controllers/TicketController.cs:22-28 | A non-empty search selects a stored ticket exactly when the search text occurs as a slice of its Title, its Description or its non-null Email |
| `TicketQuery.StatusFilterIsExact` | TicketSupportSystem/Controllers/TicketController.cs:31-34 | A non-empty status filter selects exactly the stored tickets whose Status equals it, with no partial match |
| `TicketQuery.PriorityFilterIsExact` | TicketSupportSystem/Controllers/TicketController.cs:37-40 | A non-empty priority filter selects exactly the stored tickets whose Priority equals it, with no partial match |
| `Controller.TicketsController.Rows` | TicketSupportSystem/Controllers/TicketController.cs:19 | Reading the table yields every stored row, with its comments, exactly once |
| `Controller.TicketsController.Index` | TicketSupportSystem/Controllers/TicketController.cs:17-48 | The list holds each stored ticket that passes every non-empty filter exactly once and nothing else, ordered newest first by CreatedAt |
| `Controller.TicketsController.Details` | TicketSupportSystem/Controllers/TicketController.cs:51-63 | The result is a stored ticket, with its comments, whose Id is the requested id. It is found exactly when some stored row has that Id; otherwise the result is NotFound |
| `Controller.TicketsController.Find` | TicketSupportSystem/Controllers/TicketController.cs:88-96 | Lookup by primary key, also used by the Delete page (lines 136-144): NotFound exactly when the id is absent. Otherwise it returns the stored row with its comments not loaded |
| `Controller.TicketsController.TicketExists` | TicketSupportSystem/Controllers/TicketController.cs:207-210 | True exactly when some stored row has the given Id |
| `Controller.TicketsController.Create` | TicketSupportSystem/Controllers/TicketController.cs:74-85 | An invalid ticket returns its errors and the store is unchanged. A valid ticket adds exactly one row under the next identity value, which then advances, so an id is never handed out twice, even after a delete. The row has CreatedAt set to now; all other rows are unchanged |
| `Controller.TicketsController.Edit` | TicketSupportSystem/Controllers/TicketController.cs:101-133 | A path id that differs from the posted id gives NotFound. An invalid payload gives its errors. A valid payload with the unset id 0 is inserted as a new row under the next identity value, with UpdatedAt set to now, because `Update` treats an unset key as a new entity. Any other absent id gives NotFound. In the NotFound and invalid cases the store is unchanged. Otherwise the row is replaced by the payload with UpdatedAt set to now, and its comments are kept; other rows are untouched |
| `Controller.TicketsController.DeleteConfirmed` | TicketSupportSystem/Controllers/TicketController.cs:149-159 | The store loses exactly the row with that id, together with its comments; an absent id leaves the store unchanged. Afterwards no remaining comment refers to the id |
| `Controller.TicketsController.AddComment` | TicketSupportSystem/Controllers/TicketController.cs:164-185 | An absent ticket gives NotFound. A null content or author fails the save, because `Comment` declares both `[Required]` and so their columns refuse null. In both cases the store is unchanged. Otherwise exactly one comment is appended to that ticket, carrying the ticket id, the content, the author and now. Its id differs from every comment id already stored |
| `Controller.TicketsController.UpdateStatus` | TicketSupportSystem/Controllers/TicketController.cs:190-205 | An absent ticket gives NotFound. A null status fails the save, because Status is `[Required]` and so its column refuses null. In both cases the store is unchanged. Otherwise Status becomes the given string, unchecked, and UpdatedAt becomes now; nothing else changes |

## Left out

- Entity Framework and the database (TicketSupportSystem/Models/AppDbContext.cs): the tables are a map, and the store's identity columns are two counters. Async execution is not modelled. Of the database's constraints only one is modelled: a column of a `[Required]` property refuses null, so saving a null there fails (`SaveFailed`). Other save failures are not modelled, such as a lost connection.
- Concurrency: the rethrow of an optimistic-concurrency conflict on a row that still exists (TicketController.cs:127) happens only under concurrent requests. Each action here is one atomic step, so only the sequential case is modelled: an edit of an absent id gives NotFound.
- The clock: `DateTime.Now` is the `now` argument, and `DateTime` values are integers.
- Presentation: `TempData` messages, `ViewBag`, which view or redirect is returned, anti-forgery tokens, the `Console.WriteLine` in Edit, and the GET Create action, which only shows an empty form.
- Null strings: the model does not tell null from the empty string for Title, Description, Priority and Status, whose attributes treat the two alike, or for the string parameters of AddComment and UpdateStatus, which never bind to the empty string. No stored ticket has a null Status, because the save that would store one fails. So `StatusClass`, which would throw on null, never sees one.
- Library semantics:
  - `[EmailAddress]` is modelled as .NET's rule: exactly one '@', neither first nor last.
  - `ToLower` lower-cases ASCII letters only; culture rules for other letters are not modelled.
  - `Contains` and `==` compare characters exactly; a database collation that ignores case is not modelled.
  - Lengths count Unicode scalar values, not UTF-16 code units.
  - Model-binding errors other than the declared attributes are not modelled, for example an unparsable date.
- Integer widths: ids and comment ids are unbounded, so identity overflow is not modelled.
- Controller.TicketsController.Create: the model always assigns the fresh id. A payload that posts a non-zero Id, which the real store would reject with an error, is not modelled. Comments posted with a new ticket are ignored; the forms do not post any.
- Controller.TicketsController.Edit: comments posted with the payload are ignored, and the stored comment rows are kept, since the edit form posts none.
- Comment order: the database returns included comments in no specified order. The model keeps them in insertion order.
- Comment validation: AddComment does not check the `[Required]` attributes on `Comment` through model state. A null content or author surfaces only when the save fails, and the model answers `SaveFailed` at that point. A white-space-only content or author is stored.
