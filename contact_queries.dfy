/** The two read queries of the contact list: the filter object (owner, trash
    state, optional search), and the order the store returns matches in. */
module ContactQueries {
  import opened Wrappers
  import opened Text
  import opened ContactModel

  /** The filter of a query: the live list of an owner with a search term
      ("" for none), or the trash of an owner. */
  datatype Filter = Live(owner: nat, search: string) | Trash(owner: nat)

  /** A non-empty term matches a contact whose name, email or phone contains
      it, ignoring case. */
  predicate MatchesSearch(c: Contact, term: string)
    ensures term == "" ==> MatchesSearch(c, term)
  {
    EmptyTermMatches(c.name);
    ContainsIgnoringCase(c.name, term) || ContainsIgnoringCase(c.email, term) || ContainsIgnoringCase(c.phone, term)
  }

  /** The query object: the owner filter, the trash state, and the `$or`
      over the three fields, added only for a non-empty term (which, as the
      empty term matches everything, is the same as always adding it). */
  predicate Matches(f: Filter, c: Contact)
    ensures Matches(f, c) ==> c.userId == f.owner
    ensures f.Live? ==> (Matches(f, c) <==> c.userId == f.owner && !c.isDeleted && MatchesSearch(c, f.search))
    ensures f.Trash? ==> (Matches(f, c) <==> c.userId == f.owner && c.isDeleted)
  {
    match f
    case Live(owner, search) => c.userId == owner && !c.isDeleted && (search == "" || MatchesSearch(c, search))
    case Trash(owner) => c.userId == owner && c.isDeleted
  }

  /** The sort orders the queries use. */
  datatype SortOrder = NameAsc | NameDesc | CreatedAsc | CreatedDesc | DeletedDesc

  /** The `sort` parameter of the live list; anything else, absent included,
      falls back to newest first. */
  function OrderOf(sort: string): (o: SortOrder)
    ensures sort == "name" <==> o == NameAsc
    ensures sort == "name-desc" <==> o == NameDesc
    ensures sort == "date-asc" <==> o == CreatedAsc
    ensures sort != "name" && sort != "name-desc" && sort != "date-asc" <==> o == CreatedDesc
  {
    if sort == "name" then NameAsc
    else if sort == "name-desc" then NameDesc
    else if sort == "date-asc" then CreatedAsc
    else CreatedDesc
  }

  /** A null date sorts below every date. */
  predicate DateLe(a: Option<nat>, b: Option<nat>) {
    a.None? || (b.Some? && a.value <= b.value)
  }

  /** `a` may come before `b` in order `o`. */
  predicate Before(o: SortOrder, a: Contact, b: Contact) {
    match o
    case NameAsc => LexLe(a.name, b.name)
    case NameDesc => LexLe(b.name, a.name)
    case CreatedAsc => a.createdAt <= b.createdAt
    case CreatedDesc => b.createdAt <= a.createdAt
    case DeletedDesc => DateLe(b.deletedAt, a.deletedAt)
  }

  lemma BeforeTotal(o: SortOrder, a: Contact, b: Contact)
    ensures Before(o, a, b) || Before(o, b, a)
  {
    match o
    case NameAsc => LexLeTotal(a.name, b.name);
    case NameDesc => LexLeTotal(a.name, b.name);
    case _ =>
  }

  lemma BeforeTransitive(o: SortOrder, a: Contact, b: Contact, c: Contact)
    requires Before(o, a, b) && Before(o, b, c)
    ensures Before(o, a, c)
  {
    match o
    case NameAsc => LexLeTransitive(a.name, b.name, c.name);
    case NameDesc => LexLeTransitive(c.name, b.name, a.name);
    case _ =>
  }

  predicate Sorted(s: seq<Contact>, o: SortOrder) {
    forall i, j :: 0 <= i < j < |s| ==> Before(o, s[i], s[j])
  }

  /** Puts `x` into a sequence in front of the first element it may precede. */
  function Insert(x: Contact, s: seq<Contact>, o: SortOrder): (r: seq<Contact>)
    ensures multiset(r) == multiset(s) + multiset{x}
    decreases |s|
  {
    if s == [] then [x]
    else if Before(o, x, s[0]) then
      assert s == [s[0]] + s[1..];
      [x] + s
    else
      assert s == [s[0]] + s[1..];
      [s[0]] + Insert(x, s[1..], o)
  }

  /** An element that may precede every element of `s` and `x` may precede
      every element of `Insert(x, s, o)`. */
  lemma HeadBeforeInserted(o: SortOrder, y: Contact, x: Contact, s: seq<Contact>)
    requires Before(o, y, x)
    requires forall j :: 0 <= j < |s| ==> Before(o, y, s[j])
    ensures forall j :: 0 <= j < |Insert(x, s, o)| ==> Before(o, y, Insert(x, s, o)[j])
  {
    var r := Insert(x, s, o);
    forall j | 0 <= j < |r| ensures Before(o, y, r[j]) {
      assert r[j] in multiset(r);
      if r[j] != x {
        assert r[j] in multiset(s);
      }
    }
  }

  /** Inserting into a sorted sequence keeps it sorted. */
  lemma {:induction false} InsertSorted(x: Contact, s: seq<Contact>, o: SortOrder)
    requires Sorted(s, o)
    ensures Sorted(Insert(x, s, o), o)
    decreases |s|
  {
    if s == [] {
    } else if Before(o, x, s[0]) {
      forall j | 0 < j < |s| ensures Before(o, x, s[j]) {
        BeforeTransitive(o, x, s[0], s[j]);
      }
    } else {
      BeforeTotal(o, x, s[0]);
      InsertSorted(x, s[1..], o);
      HeadBeforeInserted(o, s[0], x, s[1..]);
    }
  }

  /** The matches in the order `o`: a sorted permutation of its input. Among
      equal keys the store promises no order; this is one such order. */
  function SortBy(s: seq<Contact>, o: SortOrder): (r: seq<Contact>)
    ensures multiset(r) == multiset(s)
    ensures Sorted(r, o)
    decreases |s|
  {
    if s == [] then []
    else
      assert s == [s[0]] + s[1..];
      InsertSorted(s[0], SortBy(s[1..], o), o);
      Insert(s[0], SortBy(s[1..], o), o)
  }

  /** Two sequences with the same multiset hold the same elements. */
  lemma SameElements(r: seq<Contact>, s: seq<Contact>)
    requires multiset(r) == multiset(s)
    ensures forall c :: c in r <==> c in s
  {
    forall c ensures c in r <==> c in s {
      assert c in r <==> c in multiset(r);
      assert c in s <==> c in multiset(s);
    }
  }

  /** Every document is stored under its own id. */
  predicate KeyedById(m: map<nat, Contact>) {
    forall k :: k in m ==> m[k].id == k
  }

  /** The documents of ids below `bound` that pass `f`, in id order (the
      store's natural order), each once. */
  function Scan(m: map<nat, Contact>, bound: nat, f: Filter): (r: seq<Contact>)
    ensures forall i :: 0 <= i < |r| ==> Matches(f, r[i])
    ensures forall c :: c in r <==> exists k :: k in m && k < bound && m[k] == c && Matches(f, c)
    ensures KeyedById(m) ==> forall i :: 0 <= i < |r| ==> r[i].id < bound
    ensures KeyedById(m) ==> forall i, j :: 0 <= i < j < |r| ==> r[i].id < r[j].id
    decreases bound
  {
    if bound == 0 then []
    else
      var prev := Scan(m, bound - 1, f);
      if bound - 1 in m && Matches(f, m[bound - 1]) then prev + [m[bound - 1]]
      else prev
  }

  /** Searching "ann" finds a contact named "Ann" and one whose email is
      "ann@x.com", and not one named "Bob" with another email and phone. */
  lemma SearchExample()
    ensures ContainsIgnoringCase("Ann", "ann")
    ensures ContainsIgnoringCase("ann@x.com", "ann")
    ensures !ContainsIgnoringCase("Bob", "ann")
  {
  }
}
