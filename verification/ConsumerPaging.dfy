// The client's directory listing: ask for page after page by number, against
// a directory that may change in between.
module ConsumerPaging {
  import opened Prelude
  import opened Sorting
  import opened Variants
  import opened Machine
  import opened Runs
  import D = Directory

  const PAGE_SIZE := 100
  const INT32_LIMIT := 0x8000_0000

  function Query(query: string): Option<string> {
    if query != "" then Some(query) else None
  }

  // The directory as successive requests find it, small enough for its size
  // to fit a 32-bit count.
  ghost predicate Observed(books: seq<D.Book>) {
    books != [] && forall i :: 0 <= i < |books| ==> NonEmpty(books[i].names) && |books[i].entries| < INT32_LIMIT
  }

  function MetBook(books: seq<D.Book>, k: nat): D.Book
    requires books != []
  {
    books[Min(k, |books| - 1)]
  }

  // Names are only ever added.
  ghost predicate OnlyGrows(books: seq<D.Book>) {
    forall i, j :: 0 <= i <= j < |books| ==> books[i].entries.Keys <= books[j].entries.Keys
  }

  // That is so for any requests that rename and remove no consumer.
  lemma HistoriesOnlyGrow(history: seq<State>, books: seq<D.Book>)
    requires IsHistory(history, NOTHING_FORGOTTEN) && |books| == |history|
    requires forall i :: 0 <= i < |books| ==> books[i] == history[i].book
    ensures OnlyGrows(books)
  {
    forall i, j | 0 <= i <= j < |books| ensures books[i].entries.Keys <= books[j].entries.Keys {
      HistoryGrows(history, NOTHING_FORGOTTEN, i, j);
    }
  }

  // The names matching the query, ascending, as the k-th request finds them.
  function Found(books: seq<D.Book>, k: nat, query: string): seq<string>
    requires books != []
  {
    D.Matched(MetBook(books, k).entries, Query(query))
  }

  // Those names with their entries, as that request finds them.
  function Offered(books: seq<D.Book>, query: string): nat -> seq<D.Entry>
    requires Observed(books)
  {
    (k: nat) => Map(Found(books, k, query), D.EntryFor(MetBook(books, k)))
  }

  // The names found are those listed whose name contains the query, ignoring
  // case; all of them for an empty query.
  lemma FoundMeans(books: seq<D.Book>, k: nat, query: string, x: string)
    requires books != []
    ensures x in Found(books, k, query) <==>
            x in MetBook(books, k).entries && (query == "" || exists i :: D.OccursAt(x, query, i))
  {
    FilterMember(SortedNames(MetBook(books, k).entries.Keys), D.NameMatches(Query(query)), x);
    D.ContainsFoldedIff(x, query);
  }

  predicate Names(all: seq<D.Entry>, x: string) {
    exists i :: 0 <= i < |all| && all[i].name == x
  }

  // -------------------------------------------------- pages of changing lists

  // The k-th page of a list.
  function Stretch<T>(s: seq<T>, k: nat): (r: seq<T>)
    ensures |r| == if |s| <= PAGE_SIZE * k then 0 else Min(PAGE_SIZE, |s| - PAGE_SIZE * k)
    ensures forall i :: 0 <= i < |r| ==> r[i] == s[PAGE_SIZE * k + i]
  {
    var start := Min(PAGE_SIZE * k, |s|);
    s[start..Min(start + PAGE_SIZE, |s|)]
  }

  // The first n pages in a row, the k-th one taken from the k-th list.
  function Gathered<T>(lists: nat -> seq<T>, n: nat): seq<T> {
    if n == 0 then [] else Gathered(lists, n - 1) + Stretch(lists(n - 1), n - 1)
  }

  // The first n lists go on behind their page.
  ghost predicate GoOn<T>(lists: nat -> seq<T>, n: nat) {
    forall k: nat :: k < n ==> PAGE_SIZE * (k + 1) < |lists(k)|
  }

  // The n-th list is the first that does not.
  ghost predicate Ends<T>(lists: nat -> seq<T>, n: nat) {
    n >= 1 && GoOn(lists, n - 1) && |lists(n - 1)| <= PAGE_SIZE * n
  }

  // Every page but the last is full.
  lemma {:induction false} FullSoFar<T>(lists: nat -> seq<T>, n: nat)
    requires GoOn(lists, n)
    ensures |Gathered(lists, n)| == PAGE_SIZE * n
  {
    if n > 0 {
      FullSoFar(lists, n - 1);
      assert PAGE_SIZE * n < |lists(n - 1)|;
    }
  }

  // The loop's own test, an empty page or nothing left, is that one.
  lemma LastIff<T>(lists: nat -> seq<T>, k: nat)
    requires GoOn(lists, k)
    ensures Stretch(lists(k), k) == [] || |Gathered(lists, k + 1)| >= |lists(k)| <==> |lists(k)| <= PAGE_SIZE * (k + 1)
  {
    FullSoFar(lists, k);
  }

  // The i-th element gathered is the i-th of the list whose page covers that
  // position.
  lemma {:induction false} Position<T>(lists: nat -> seq<T>, n: nat, i: nat)
    requires n >= 1 && GoOn(lists, n - 1) && i < PAGE_SIZE * n
    ensures var all, s := Gathered(lists, n), lists(i / PAGE_SIZE);
            (i < |all| <==> i < |s|) && (i < |all| ==> all[i] == s[i])
  {
    FullSoFar(lists, n - 1);
    var s := lists(n - 1);
    assert Gathered(lists, n) == Gathered(lists, n - 1) + Stretch(s, n - 1);
    if i < PAGE_SIZE * (n - 1) {
      Position(lists, n - 1, i);
      assert PAGE_SIZE * (i / PAGE_SIZE + 1) < |lists(i / PAGE_SIZE)|;
    } else {
      assert i / PAGE_SIZE == n - 1;
    }
  }

  lemma GatheredSize<T>(lists: nat -> seq<T>, n: nat)
    requires Ends(lists, n)
    ensures |Gathered(lists, n)| <= PAGE_SIZE * n
    ensures PAGE_SIZE * (n - 1) <= |lists(n - 1)| ==> |Gathered(lists, n)| == |lists(n - 1)|
  {
    FullSoFar(lists, n - 1);
  }

  // While the list never changes, all of it is gathered.
  lemma QuietGathersAll<T>(lists: nat -> seq<T>, n: nat)
    requires Ends(lists, n) && forall k: nat :: k < n ==> lists(k) == lists(0)
    ensures Gathered(lists, n) == lists(0)
  {
    var all := Gathered(lists, n);
    GatheredSize(lists, n);
    if n > 1 { assert PAGE_SIZE * (n - 1) < |lists(n - 2)|; }
    assert lists(n - 1) == lists(0);
    forall i | 0 <= i < |all| ensures all[i] == lists(0)[i] {
      Position(lists, n, i);
      assert lists(i / PAGE_SIZE) == lists(0);
    }
  }

  // ------------------------------------------------------------- one request

  lemma FoundSize(books: seq<D.Book>, k: nat, query: string)
    requires Observed(books)
    ensures |Found(books, k, query)| < INT32_LIMIT
  {
    var b := MetBook(books, k);
    SortedNamesSize(b.entries.Keys);
    assert |b.entries.Keys| == |b.entries|;
  }

  // A page within range is computed without wrapping: the next stretch of
  // the matching entries.
  lemma PageInRange(books: seq<D.Book>, k: nat, query: string)
    requires Observed(books)
    requires PAGE_SIZE * k < INT32_LIMIT
    ensures var offered := Offered(books, query)(k);
            D.PageOf(MetBook(books, k), Query(query), k + 1, PAGE_SIZE) == Ok(D.OnePage(Stretch(offered, k), |offered|))
  {
    FoundSize(books, k, query);
    D.PageOfInRange(MetBook(books, k), Query(query), k + 1, PAGE_SIZE, PAGE_SIZE * k);
    StretchOfMap(Found(books, k, query), D.EntryFor(MetBook(books, k)), k);
  }

  lemma StretchOfMap<T, U>(s: seq<T>, f: T -> U, k: nat)
    ensures Stretch(Map(s, f), k) == Map(Stretch(s, k), f)
  {
  }

  // The k-th request; it never fails, for its page starts within range.
  method Ask(books: seq<D.Book>, k: nat, page: int, query: string) returns (entries: seq<D.Entry>, total: int)
    requires Observed(books) && page == k + 1
    requires PAGE_SIZE * k < INT32_LIMIT
    ensures entries == Stretch(Offered(books, query)(k), k)
    ensures total == |Offered(books, query)(k)| < INT32_LIMIT
  {
    PageInRange(books, k, query);
    FoundSize(books, k, query);
    var res := D.PageOf(MetBook(books, k), Query(query), page, PAGE_SIZE);
    return res.value.entries, res.value.total;
  }

  // The listing ends, whatever happens between its requests, and never asks
  // for a page whose start leaves the 32-bit range.
  method ListConsumers(books: seq<D.Book>, query: string) returns (r: Result<seq<D.Entry>>, requests: nat)
    requires Observed(books)
    ensures Ends(Offered(books, query), requests)
    ensures r == Ok(Gathered(Offered(books, query), requests))
    ensures PAGE_SIZE * (requests - 1) < INT32_LIMIT
    ensures Complete(books, query, requests, r.value)
  {
    ghost var offered := Offered(books, query);
    var all: seq<D.Entry>, page := [], 1;
    requests := 0;
    while true
      invariant page == requests + 1
      invariant GoOn(offered, requests)
      invariant all == Gathered(offered, requests) && |all| == PAGE_SIZE * requests < INT32_LIMIT
      decreases INT32_LIMIT - |all|
    {
      var got, total := Ask(books, requests, page, query);
      all := all + got;
      LastIff(offered, requests);
      requests := requests + 1;
      if |got| == 0 || |all| >= total {
        ListingIsComplete(books, query, requests);
        return Ok(all), requests;
      }
      page := page + 1;
      FullSoFar(offered, requests);
    }
  }

  // ---------------------------------------------------------- what is listed

  // The matching names of the directory the k-th request finds.
  ghost function Matching(books: seq<D.Book>, k: nat, query: string): set<string>
    requires books != []
  {
    set x | x in MetBook(books, k).entries.Keys && D.NameMatches(Query(query))(x)
  }

  lemma FoundIsSorted(books: seq<D.Book>, k: nat, query: string)
    requires books != []
    ensures Found(books, k, query) == SortedNames(Matching(books, k, query))
  {
    FilteredNames(MetBook(books, k).entries.Keys, D.NameMatches(Query(query)));
  }

  // How many matching names the k-th request finds before x.
  ghost function Rank(books: seq<D.Book>, k: nat, query: string, x: string): nat
    requires books != []
  {
    |Below(Matching(books, k, query), x)|
  }

  lemma RankIsIndex(books: seq<D.Book>, k: nat, query: string, i: nat)
    requires books != [] && i < |Found(books, k, query)|
    ensures Rank(books, k, query, Found(books, k, query)[i]) == i
  {
    FoundIsSorted(books, k, query);
    RankIsPosition(Matching(books, k, query), i);
  }

  lemma RankedIsFound(books: seq<D.Book>, k: nat, query: string, x: string)
    requires books != [] && x in Matching(books, k, query)
    ensures var i := Rank(books, k, query, x);
            i < |Found(books, k, query)| && Found(books, k, query)[i] == x
  {
    FoundIsSorted(books, k, query);
    var i :| 0 <= i < |Found(books, k, query)| && Found(books, k, query)[i] == x;
    RankIsIndex(books, k, query, i);
  }

  // The k-th request's own page covers x.
  ghost predicate Catches(books: seq<D.Book>, k: nat, query: string, x: string)
    requires books != []
  {
    x in Matching(books, k, query) && PAGE_SIZE * k <= Rank(books, k, query, x) < PAGE_SIZE * (k + 1)
  }

  // Its place on that page.
  ghost predicate StandsAt(books: seq<D.Book>, query: string, x: string, i: nat)
    requires Observed(books)
  {
    var offered := Offered(books, query)(i / PAGE_SIZE);
    i < |offered| && offered[i].name == x
  }

  lemma CaughtStands(books: seq<D.Book>, query: string, k: nat, x: string)
    requires Observed(books) && Catches(books, k, query, x)
    ensures var i := Rank(books, k, query, x); i / PAGE_SIZE == k && StandsAt(books, query, x, i)
  {
    RankedIsFound(books, k, query, x);
  }

  lemma StandsIsCaught(books: seq<D.Book>, query: string, x: string, i: nat)
    requires Observed(books) && StandsAt(books, query, x, i)
    ensures Catches(books, i / PAGE_SIZE, query, x)
  {
    RankIsIndex(books, i / PAGE_SIZE, query, i);
    FoundIsSorted(books, i / PAGE_SIZE, query);
    assert x in Found(books, i / PAGE_SIZE, query);
  }

  // A name is listed exactly when some request meets it at a rank its own
  // page covers, whatever happens to this and other names in between.
  lemma ListedIff(books: seq<D.Book>, query: string, n: nat, x: string)
    requires Observed(books) && Ends(Offered(books, query), n)
    ensures Names(Gathered(Offered(books, query), n), x) <==> exists k :: 0 <= k < n && Catches(books, k, query, x)
  {
    var offered := Offered(books, query);
    var all := Gathered(offered, n);
    GatheredSize(offered, n);
    if i :| 0 <= i < |all| && all[i].name == x {
      Position(offered, n, i);
      StandsIsCaught(books, query, x, i);
    }
    if k :| 0 <= k < n && Catches(books, k, query, x) {
      CaughtStands(books, query, k, x);
      var i := Rank(books, k, query, x);
      Position(offered, n, i);
      assert all[i].name == x;
    }
  }

  // A rank that never falls, and is within what was asked for in the end, is
  // within some request's own page.
  lemma SomePageCovers(rank: nat -> nat, n: nat) returns (k: nat)
    requires n >= 1 && rank(n - 1) < PAGE_SIZE * n
    requires forall i: nat, j: nat :: i <= j < n ==> rank(i) <= rank(j)
    ensures k < n && PAGE_SIZE * k <= rank(k) < PAGE_SIZE * (k + 1)
  {
    k := 0;
    while PAGE_SIZE * (k + 1) <= rank(k)
      invariant k < n && PAGE_SIZE * k <= rank(k)
      decreases n - k
    {
      k := k + 1;
    }
  }

  lemma CaughtIsListed(books: seq<D.Book>, query: string, n: nat, x: string, k: nat)
    requires Observed(books) && Ends(Offered(books, query), n)
    requires k < n && Catches(books, k, query, x)
    ensures Names(Gathered(Offered(books, query), n), x)
  {
    ListedIff(books, query, n, x);
  }

  lemma NeverCaughtIsMissed(books: seq<D.Book>, query: string, n: nat, x: string)
    requires Observed(books) && Ends(Offered(books, query), n)
    requires forall k: nat :: !Catches(books, k, query, x)
    ensures !Names(Gathered(Offered(books, query), n), x)
  {
    ListedIff(books, query, n, x);
  }

  lemma LastRank(books: seq<D.Book>, query: string, n: nat, x: string)
    requires Observed(books) && Ends(Offered(books, query), n) && x in Matching(books, n - 1, query)
    ensures Rank(books, n - 1, query, x) < PAGE_SIZE * n
  {
    RankedIsFound(books, n - 1, query, x);
    OfferedSize(books, query, n - 1);
    LastList(Offered(books, query), n);
  }

  lemma LastList<T>(lists: nat -> seq<T>, n: nat)
    requires Ends(lists, n)
    ensures |lists(n - 1)| <= PAGE_SIZE * n
  {
  }

  lemma OfferedSize(books: seq<D.Book>, query: string, k: nat)
    requires Observed(books)
    ensures |Offered(books, query)(k)| == |Found(books, k, query)|
  {
  }

  // A name that every request finds is listed when no fewer names stand
  // before it each time; whatever is removed behind it, or does not match,
  // is of no account.
  lemma PresentIsListed(books: seq<D.Book>, query: string, n: nat, x: string)
    requires Observed(books) && Ends(Offered(books, query), n)
    requires forall k :: 0 <= k < n ==> x in Matching(books, k, query)
    requires forall j: nat, k: nat :: j <= k < n ==> Rank(books, j, query, x) <= Rank(books, k, query, x)
    ensures Names(Gathered(Offered(books, query), n), x)
  {
    LastRank(books, query, n, x);
    var k := SomePageCovers((k: nat) => Rank(books, k, query, x), n);
    CaughtIsListed(books, query, n, x, k);
  }

  // No name standing at or before x is gone from one request to a later one.
  ghost predicate KeptUpTo(books: seq<D.Book>, query: string, x: string)
    requires books != []
  {
    forall j: nat, k: nat, y :: j <= k && y in Matching(books, j, query) && StrLe(y, x) ==> y in Matching(books, k, query)
  }

  // So every name with nothing at or before it removed is listed.
  lemma KeptIsListed(books: seq<D.Book>, query: string, n: nat, x: string)
    requires Observed(books) && Ends(Offered(books, query), n)
    requires x in Found(books, 0, query) && KeptUpTo(books, query, x)
    ensures Names(Gathered(Offered(books, query), n), x)
  {
    FoundIsSorted(books, 0, query);
    StrLeReflexive(x);
    forall j: nat, k: nat | j <= k < n ensures Rank(books, j, query, x) <= Rank(books, k, query, x) {
      RankStays(books, query, x, j, k);
    }
    assert forall k: nat :: k < n ==> x in Matching(books, k, query);
    PresentIsListed(books, query, n, x);
  }

  lemma RankStays(books: seq<D.Book>, query: string, x: string, j: nat, k: nat)
    requires books != [] && KeptUpTo(books, query, x) && j <= k
    ensures Rank(books, j, query, x) <= Rank(books, k, query, x)
  {
    SubsetSize(Below(Matching(books, j, query), x), Below(Matching(books, k, query), x));
  }

  // That is so for any requests that rename or remove no name up to x.
  lemma HistoriesKeepUpTo(history: seq<State>, books: seq<D.Book>, query: string, x: string)
    requires IsHistory(history, KeepsUpTo(x)) && |books| == |history|
    requires forall i :: 0 <= i < |books| ==> books[i] == history[i].book
    ensures KeptUpTo(books, query, x)
  {
    forall j: nat, k: nat, y | j <= k && y in Matching(books, j, query) && StrLe(y, x)
      ensures y in Matching(books, k, query)
    {
      assert MetBook(books, j) == Met(history, j).book && MetBook(books, k) == Met(history, k).book;
      HistoryKeepsName(history, KeepsUpTo(x), y, j, k);
    }
  }

  // Removing one name before another moves that one up by a place.
  lemma RankDrops(books: seq<D.Book>, query: string, i: nat, j: nat, k: nat)
    requires |books| == 2 && i < j < |Found(books, 0, query)| && k > 0
    requires books[1].entries == books[0].entries - {Found(books, 0, query)[i]}
    ensures var x := Found(books, 0, query)[j];
            x in Matching(books, 0, query) && x in Matching(books, k, query) && Rank(books, k, query, x) == j - 1
  {
    var found := Found(books, 0, query);
    var gone, x := found[i], found[j];
    FoundIsSorted(books, 0, query);
    RankIsIndex(books, 0, query, j);
    assert gone in Matching(books, 0, query) && x in Matching(books, 0, query);
    assert StrLe(SELF(found[i]), SELF(found[j])) && gone != x;
    assert Matching(books, k, query) == Matching(books, 0, query) - {gone};
    OneLessBelow(Matching(books, 0, query), gone, x);
  }

  lemma OneLessBelow(names: set<string>, gone: string, x: string)
    requires gone in Below(names, x)
    ensures |Below(names - {gone}, x)| == |Below(names, x)| - 1
  {
    assert Below(names - {gone}, x) == Below(names, x) - {gone};
  }

  // One of the first hundred names goes between the two requests.
  ghost predicate LosesEarlyName(books: seq<D.Book>, query: string, i: nat) {
    && |books| == 2
    && i < PAGE_SIZE < |Found(books, 0, query)|
    && books[1].entries == books[0].entries - {Found(books, 0, query)[i]}
  }

  lemma SlipsThrough(books: seq<D.Book>, query: string, i: nat, k: nat)
    requires LosesEarlyName(books, query, i)
    ensures var x := Found(books, 0, query)[PAGE_SIZE];
            x in Matching(books, k, query) && !Catches(books, k, query, x)
  {
    if k == 0 {
      RankIsIndex(books, 0, query, PAGE_SIZE);
      FoundIsSorted(books, 0, query);
      assert Found(books, 0, query)[PAGE_SIZE] in Found(books, 0, query);
    } else {
      RankDrops(books, query, i, PAGE_SIZE, k);
    }
  }

  // Then the name that stood first on the second page slips onto the first
  // and is missed, though every request finds it.
  lemma RemovalHidesAnother(books: seq<D.Book>, query: string, n: nat, i: nat)
    requires Observed(books) && Ends(Offered(books, query), n) && LosesEarlyName(books, query, i)
    ensures var x := Found(books, 0, query)[PAGE_SIZE];
            (forall k: nat :: x in Matching(books, k, query)) && !Names(Gathered(Offered(books, query), n), x)
  {
    var x := Found(books, 0, query)[PAGE_SIZE];
    forall k: nat ensures x in Matching(books, k, query) && !Catches(books, k, query, x) {
      SlipsThrough(books, query, i, k);
    }
    NeverCaughtIsMissed(books, query, n, x);
  }

  // Every entry listed is one the directory had when some request met it.
  lemma ListedWasMet(books: seq<D.Book>, query: string, n: nat, i: nat)
    requires Observed(books) && Ends(Offered(books, query), n) && i < |Gathered(Offered(books, query), n)|
    ensures MetBySome(books, n, query, Gathered(Offered(books, query), n)[i])
  {
    var k := i / PAGE_SIZE;
    GatheredSize(Offered(books, query), n);
    Position(Offered(books, query), n, i);
    FoundIsSorted(books, k, query);
    assert Found(books, k, query)[i] in Matching(books, k, query);
    assert WasMet(books, k, query, Gathered(Offered(books, query), n)[i]);
  }

  ghost predicate MetBySome(books: seq<D.Book>, n: nat, query: string, e: D.Entry)
    requires Observed(books)
  {
    exists k :: 0 <= k < n && WasMet(books, k, query, e)
  }

  ghost predicate WasMet(books: seq<D.Book>, k: nat, query: string, e: D.Entry)
    requires Observed(books)
  {
    e.name in Matching(books, k, query) && e == D.EntryOf(MetBook(books, k), e.name)
  }

  // One request per full page, and one for the remainder or an empty list.
  predicate SeesThrough(k: nat, n: nat) {
    k >= 1 && (k == 1 || PAGE_SIZE * (k - 1) < n) && n <= PAGE_SIZE * k
  }

  lemma CostFormula(k: nat, n: nat)
    requires SeesThrough(k, n)
    ensures k == if n == 0 then 1 else (n + 99) / 100
  {
  }

  lemma MatchingGrows(books: seq<D.Book>, j: nat, k: nat, query: string)
    requires books != [] && OnlyGrows(books) && j <= k
    ensures Matching(books, j, query) <= Matching(books, k, query)
  {
    assert MetBook(books, j).entries.Keys <= MetBook(books, k).entries.Keys;
  }

  lemma Lengthens(books: seq<D.Book>, j: nat, k: nat, query: string)
    requires books != [] && OnlyGrows(books) && j <= k
    ensures |Found(books, j, query)| <= |Found(books, k, query)|
  {
    FoundIsSorted(books, j, query);
    FoundIsSorted(books, k, query);
    MatchingGrows(books, j, k, query);
    SortedNamesSize(Matching(books, j, query));
    SortedNamesSize(Matching(books, k, query));
    SubsetSize(Matching(books, j, query), Matching(books, k, query));
  }

  lemma LastListSeenThrough<T>(lists: nat -> seq<T>, n: nat)
    requires Ends(lists, n) && (n > 1 ==> |lists(n - 2)| <= |lists(n - 1)|)
    ensures SeesThrough(n, |lists(n - 1)|)
  {
    if n > 1 { assert PAGE_SIZE * (n - 2 + 1) < |lists(n - 2)|; }
  }

  // While names are only added, every matching name there was at first is
  // listed, in as many requests as the last directory met needs.
  lemma GrowthListsAll(books: seq<D.Book>, query: string, n: nat)
    requires Observed(books) && Ends(Offered(books, query), n) && OnlyGrows(books)
    ensures FirstAreListed(books, query, Gathered(Offered(books, query), n))
  {
    forall x | x in Found(books, 0, query) ensures Names(Gathered(Offered(books, query), n), x) {
      GrowthIsKept(books, query, x);
      KeptIsListed(books, query, n, x);
    }
  }

  lemma GrowthIsKept(books: seq<D.Book>, query: string, x: string)
    requires books != [] && OnlyGrows(books)
    ensures KeptUpTo(books, query, x)
  {
    forall j: nat, k: nat | j <= k ensures Matching(books, j, query) <= Matching(books, k, query) {
      MatchingGrows(books, j, k, query);
    }
  }

  lemma OfferedGrows(books: seq<D.Book>, query: string, j: nat, k: nat)
    requires Observed(books) && OnlyGrows(books) && j <= k
    ensures |Offered(books, query)(j)| <= |Offered(books, query)(k)|
  {
    Lengthens(books, j, k, query);
    OfferedSize(books, query, j);
    OfferedSize(books, query, k);
  }

  lemma GrowthCost(books: seq<D.Book>, query: string, n: nat)
    requires Observed(books) && Ends(Offered(books, query), n) && OnlyGrows(books)
    ensures SeesThrough(n, |Offered(books, query)(n - 1)|)
  {
    if n > 1 { OfferedGrows(books, query, n - 2, n - 1); }
    LastListSeenThrough(Offered(books, query), n);
  }

  // What a caller can rely on: whatever happens in between, every entry
  // listed was met and every name with nothing up to it removed is listed;
  // while names are only added, that is every matching name there was at
  // first; and if nothing changes it is exactly the matching entries, in
  // order.
  ghost predicate Complete(books: seq<D.Book>, query: string, n: nat, all: seq<D.Entry>)
    requires Observed(books) && n >= 1
  {
    && AllMet(books, query, n, all)
    && KeptAreListed(books, query, all)
    && (OnlyGrows(books) ==> FirstAreListed(books, query, all) && SeesThrough(n, |Offered(books, query)(n - 1)|))
    && (|books| == 1 ==> all == Offered(books, query)(0))
  }

  // Every matching name there was at first.
  ghost predicate FirstAreListed(books: seq<D.Book>, query: string, all: seq<D.Entry>)
    requires Observed(books)
  {
    forall x :: x in Found(books, 0, query) ==> Names(all, x)
  }

  ghost predicate AllMet(books: seq<D.Book>, query: string, n: nat, all: seq<D.Entry>)
    requires Observed(books)
  {
    forall i :: 0 <= i < |all| ==> MetBySome(books, n, query, all[i])
  }

  ghost predicate KeptAreListed(books: seq<D.Book>, query: string, all: seq<D.Entry>)
    requires Observed(books)
  {
    forall x :: x in Found(books, 0, query) && KeptUpTo(books, query, x) ==> Names(all, x)
  }

  lemma ListingIsComplete(books: seq<D.Book>, query: string, n: nat)
    requires Observed(books) && Ends(Offered(books, query), n)
    ensures Complete(books, query, n, Gathered(Offered(books, query), n))
  {
    AllWasMet(books, query, n);
    AllKeptIsListed(books, query, n);
    if OnlyGrows(books) {
      GrowthListsAll(books, query, n);
      GrowthCost(books, query, n);
    }
    if |books| == 1 { QuietIsExact(books, query, n); }
  }

  lemma QuietIsExact(books: seq<D.Book>, query: string, n: nat)
    requires Observed(books) && Ends(Offered(books, query), n) && |books| == 1
    ensures Gathered(Offered(books, query), n) == Offered(books, query)(0)
  {
    forall k: nat ensures Offered(books, query)(k) == Offered(books, query)(0) {
      assert MetBook(books, k) == MetBook(books, 0);
    }
    QuietGathersAll(Offered(books, query), n);
  }

  lemma AllWasMet(books: seq<D.Book>, query: string, n: nat)
    requires Observed(books) && Ends(Offered(books, query), n)
    ensures AllMet(books, query, n, Gathered(Offered(books, query), n))
  {
    var all := Gathered(Offered(books, query), n);
    forall i | 0 <= i < |all| ensures MetBySome(books, n, query, all[i]) {
      ListedWasMet(books, query, n, i);
    }
  }

  lemma AllKeptIsListed(books: seq<D.Book>, query: string, n: nat)
    requires Observed(books) && Ends(Offered(books, query), n)
    ensures KeptAreListed(books, query, Gathered(Offered(books, query), n))
  {
    forall x | x in Found(books, 0, query) && KeptUpTo(books, query, x)
      ensures Names(Gathered(Offered(books, query), n), x)
    {
      KeptIsListed(books, query, n, x);
    }
  }
}
