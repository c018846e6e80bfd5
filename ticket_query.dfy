/** The ticket listing query: the optional search, status and priority
    filters, and the newest-first ordering. */
module TicketQuery {
  import opened Text
  import opened Tickets

  /** The search box: the text occurs in the Title, the Description or the
      Email, compared character by character. A null Email, which the query
      compares as SQL does, matches nothing. */
  predicate SearchMatches(t: Ticket, searchString: string) {
    || Contains(t.title, searchString)
    || Contains(t.description, searchString)
    || (t.email.Some? && Contains(t.email.value, searchString))
  }

  /** A ticket passes the listing's filters when it passes every filter that
      is not empty; an empty filter imposes nothing. */
  predicate Matches(t: Ticket, searchString: string, statusFilter: string, priorityFilter: string) {
    && (searchString == "" || SearchMatches(t, searchString))
    && (statusFilter == "" || t.status == statusFilter)
    && (priorityFilter == "" || t.priority == priorityFilter)
  }

  /** The stored tickets the listing shows, as a set. */
  function Select(
    store: map<int, Ticket>, searchString: string, statusFilter: string, priorityFilter: string
  ): set<Ticket> {
    set id | id in store && Matches(store[id], searchString, statusFilter, priorityFilter) :: store[id]
  }

  /** LINQ's Where: keeps, in order, the elements that satisfy `p`; each one
      as many times as it occurs, and nothing else. */
  function Where<T(!new)>(s: seq<T>, p: T -> bool): (r: seq<T>)
    ensures forall x :: multiset(r)[x] == if p(x) then multiset(s)[x] else 0
    ensures |r| <= |s|
  {
    if s == [] then []
    else
      assert s == [s[0]] + s[1..];
      (if p(s[0]) then [s[0]] else []) + Where(s[1..], p)
  }

  /** Newer tickets come first: CreatedAt never increases along the list. */
  predicate NewestFirst(s: seq<Ticket>) {
    forall i, j :: 0 <= i < j < |s| ==> s[i].createdAt >= s[j].createdAt
  }

  /** Places `t` in a newest-first list, in front of the tickets no newer
      than it. */
  function Insert(t: Ticket, s: seq<Ticket>): (r: seq<Ticket>)
    requires NewestFirst(s)
    ensures NewestFirst(r)
    ensures multiset(r) == multiset(s) + multiset{t}
  {
    if s == [] then [t]
    else if t.createdAt >= s[0].createdAt then [t] + s
    else
      var rest := Insert(t, s[1..]);
      assert s == [s[0]] + s[1..];
      InsertKeepsHead(s[0], t, s[1..], rest);
      [s[0]] + rest
  }

  /** A ticket newer than `t` and than every ticket of `s` may stand in front
      of any arrangement of `s` and `t`. */
  lemma InsertKeepsHead(head: Ticket, t: Ticket, s: seq<Ticket>, rest: seq<Ticket>)
    requires NewestFirst([head] + s) && NewestFirst(rest)
    requires t.createdAt < head.createdAt
    requires multiset(rest) == multiset(s) + multiset{t}
    ensures NewestFirst([head] + rest)
  {
    forall j | 0 <= j < |rest| ensures rest[j].createdAt <= head.createdAt {
      assert rest[j] in multiset(rest);
      if rest[j] != t {
        assert rest[j] in multiset(s);
        assert rest[j] in s;
        var k :| 0 <= k < |s| && s[k] == rest[j];
        assert ([head] + s)[0] == head && ([head] + s)[k + 1] == s[k];
      }
    }
  }

  /** OrderByDescending(t => t.CreatedAt): the same tickets, newest first. */
  function OrderByCreatedAtDescending(s: seq<Ticket>): (r: seq<Ticket>)
    ensures NewestFirst(r)
    ensures multiset(r) == multiset(s)
  {
    if s == [] then []
    else
      assert s == [s[0]] + s[1..];
      Insert(s[0], OrderByCreatedAtDescending(s[1..]))
  }

  // ---------------------------------------------------------------------
  // Properties of the filters.

  /** A key under which a value of a map is stored. */
  lemma KeyOf<K, V>(m: map<K, V>, v: V) returns (k: K)
    requires v in m.Values
    ensures k in m && m[k] == v
  {
    k :| k in m && m[k] == v;
  }

  /** The listing shows exactly the stored tickets that pass every non-empty
      filter. */
  lemma SelectIsFilteredValues(
    store: map<int, Ticket>, searchString: string, statusFilter: string, priorityFilter: string,
    t: Ticket)
    ensures t in Select(store, searchString, statusFilter, priorityFilter) <==>
      t in store.Values && Matches(t, searchString, statusFilter, priorityFilter)
  {
    if t in store.Values {
      var id := KeyOf(store, t);
    }
  }

  /** With every filter empty, the listing shows every stored ticket. */
  lemma UnfilteredSelectsAll(store: map<int, Ticket>)
    ensures Select(store, "", "", "") == store.Values
  {
    forall t | t in store.Values ensures t in Select(store, "", "", "") {
      var id := KeyOf(store, t);
      assert Matches(store[id], "", "", "");
    }
  }

  /** The filters combine by AND: the listing is the intersection of what
      each filter shows on its own. */
  lemma FiltersCombineByAnd(
    store: map<int, Ticket>, searchString: string, statusFilter: string, priorityFilter: string)
    ensures Select(store, searchString, statusFilter, priorityFilter) ==
      Select(store, searchString, "", "") * Select(store, "", statusFilter, "")
        * Select(store, "", "", priorityFilter)
  {
    var all := Select(store, searchString, statusFilter, priorityFilter);
    var both := Select(store, searchString, "", "") * Select(store, "", statusFilter, "")
        * Select(store, "", "", priorityFilter);
    forall t | t in both ensures t in all {
      var id := KeyOf(store, t);
      assert Matches(t, searchString, statusFilter, priorityFilter);
    }
  }

  /** A non-empty search shows exactly the stored tickets whose Title,
      Description or Email contains it: the three fields combine by OR. */
  lemma SearchIsSubstringOfAnyField(store: map<int, Ticket>, searchString: string, t: Ticket)
    requires searchString != ""
    ensures t in Select(store, searchString, "", "") <==>
      t in store.Values
      && ((exists i :: OccursAt(t.title, searchString, i))
          || (exists i :: OccursAt(t.description, searchString, i))
          || (t.email.Some? && exists i :: OccursAt(t.email.value, searchString, i)))
  {
    ContainsIffOccurs(t.title, searchString);
    ContainsIffOccurs(t.description, searchString);
    if t.email.Some? {
      ContainsIffOccurs(t.email.value, searchString);
    }
    if t in store.Values {
      var id := KeyOf(store, t);
    }
  }

  /** A non-empty status filter shows exactly the stored tickets whose Status
      equals it. */
  lemma StatusFilterIsExact(store: map<int, Ticket>, statusFilter: string, t: Ticket)
    requires statusFilter != ""
    ensures t in Select(store, "", statusFilter, "") <==>
      t in store.Values && t.status == statusFilter
  {
    if t in store.Values {
      var id := KeyOf(store, t);
    }
  }

  /** A non-empty priority filter shows exactly the stored tickets whose
      Priority equals it. */
  lemma PriorityFilterIsExact(store: map<int, Ticket>, priorityFilter: string, t: Ticket)
    requires priorityFilter != ""
    ensures t in Select(store, "", "", priorityFilter) <==>
      t in store.Values && t.priority == priorityFilter
  {
    if t in store.Values {
      var id := KeyOf(store, t);
    }
  }
}
