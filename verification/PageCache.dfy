/** The weighted page cache: an array of entries, most recently touched first, that evicts among
    the entries of least weight the one touched longest ago. */
module PageCache {

  const MAX_CACHE_PAGES := 256
  const MAX_CACHE_AGE := 50

  /** A reference to a page's data. */
  datatype PageObj = NULL | Obj(id: nat)

  datatype Entry = Entry(pageIdx: int, weight: int, age: int, pageObj: PageObj)

  const EMPTY := Entry(-1, 0, 0, NULL)

  predicate InUse(e: Entry) { e.pageObj != NULL }

  /** Entry `i` moved to the front, its age reset. */
  function Front(c: seq<Entry>, i: nat): (r: seq<Entry>)
    requires i < |c|
    ensures |r| == |c|
  {
    [c[i].(age := 0)] + c[..i] + c[i + 1..]
  }

  /** Where the entry now at `k` stood before entry `i` moved to the front. */
  function From(i: nat, k: nat): nat { if k == 0 then i else if k <= i then k - 1 else k }

  lemma FrontEach(c: seq<Entry>, i: nat)
    requires i < |c|
    ensures forall k :: 0 <= k < |c| ==> Front(c, i)[k] == if k == 0 then c[i].(age := 0) else c[From(i, k)]
    ensures forall k :: 0 < k < |c| ==> 0 <= From(i, k) < |c| && From(i, k) != i
    ensures forall k :: 0 <= k < |c| && k != i ==> 0 < Now(i, k) < |c| && From(i, Now(i, k)) == k
  {
  }

  /** Where the entry that stood at `k` stands now. */
  function Now(i: nat, k: nat): nat { if k == i then 0 else if k < i then k + 1 else k }

  // ------------------------------------------------------------------ what every operation keeps

  /** An entry holds a page or none, and no two hold the same. */
  ghost predicate Sound(c: seq<Entry>) {
    && (forall i :: 0 <= i < |c| ==> (InUse(c[i]) <==> c[i].pageIdx != -1))
    && (forall i, j :: 0 <= i < j < |c| && InUse(c[i]) && InUse(c[j]) ==> c[i].pageIdx != c[j].pageIdx)
  }

  ghost predicate AgesUp(c: seq<Entry>) {
    && (forall i :: 0 <= i < |c| ==> c[i].age >= 0)
    && forall i, j :: 0 <= i < j < |c| ==> c[i].age <= c[j].age
  }

  /** Entries in use stand in the order of their last touch; an age is the ticks since then. */
  ghost predicate Stamped(c: seq<Entry>, touched: map<int, nat>, tickAt: map<int, int>, clock: nat, ticks: int) {
    && (forall i :: 0 <= i < |c| && InUse(c[i]) ==> c[i].pageIdx in touched && c[i].pageIdx in tickAt)
    && (forall i :: 0 <= i < |c| && InUse(c[i]) ==>
          touched[c[i].pageIdx] <= clock && c[i].age == ticks - tickAt[c[i].pageIdx])
    && forall i, j :: 0 <= i < j < |c| && InUse(c[i]) && InUse(c[j]) ==> touched[c[i].pageIdx] > touched[c[j].pageIdx]
  }

  /** What is cached for each page, and with what weight. */
  datatype Cached = Cached(pageObj: PageObj, weight: int)

  ghost predicate Shows(c: seq<Entry>, m: map<int, Cached>) {
    && (forall k :: 0 <= k < |c| && InUse(c[k]) ==> c[k].pageIdx in m && m[c[k].pageIdx] == Cached(c[k].pageObj, c[k].weight))
    && forall p :: p in m ==> Listed(c, p)
  }

  ghost predicate Listed(c: seq<Entry>, p: int) {
    exists k :: 0 <= k < |c| && InUse(c[k]) && c[k].pageIdx == p
  }

  /** The references held by entries in use. */
  ghost function Refs(c: seq<Entry>): multiset<PageObj> {
    if c == [] then multiset{} else Held(c[0].pageObj) + Refs(c[1..])
  }

  function Held(o: PageObj): multiset<PageObj> { if o == NULL then multiset{} else multiset{o} }

  // ------------------------------------------------------------------ moving to the front

  lemma FrontSound(c: seq<Entry>, i: nat)
    requires Sound(c) && i < |c|
    ensures Sound(Front(c, i))
  {
    hide Front;
    FrontEach(c, i);
    var r := Front(c, i);
    forall a, b | 0 <= a < b < |r| && InUse(r[a]) && InUse(r[b]) ensures r[a].pageIdx != r[b].pageIdx {
      assert r[a].pageIdx == c[From(i, a)].pageIdx && r[b].pageIdx == c[From(i, b)].pageIdx && From(i, a) != From(i, b);
    }
  }

  lemma FrontAges(c: seq<Entry>, i: nat)
    requires AgesUp(c) && i < |c|
    ensures AgesUp(Front(c, i))
  {
    hide Front;
    FrontEach(c, i);
    var r := Front(c, i);
    forall a, b | 0 <= a < b < |r| ensures r[a].age <= r[b].age {
      assert r[b] == c[From(i, b)];
      if a > 0 { assert r[a] == c[From(i, a)]; }
    }
  }

  lemma FrontStamped(c: seq<Entry>, i: nat, touched: map<int, nat>, tickAt: map<int, int>, clock: nat, ticks: int)
    requires Sound(c) && i < |c| && InUse(c[i]) && StampedBut(c, i, touched, tickAt, clock, ticks)
    ensures Stamped(Front(c, i), touched[c[i].pageIdx := clock + 1], tickAt[c[i].pageIdx := ticks], clock + 1, ticks)
  {
    hide Front;
    FrontEach(c, i);
    var r := Front(c, i);
    forall k | 0 < k < |r| && InUse(r[k]) ensures r[k] == c[From(i, k)] && r[k].pageIdx != c[i].pageIdx {}
  }

  /** Stamped, but for the entry at `i`, which has just been stored or is about to be touched. */
  ghost predicate StampedBut(c: seq<Entry>, i: nat, touched: map<int, nat>, tickAt: map<int, int>, clock: nat, ticks: int) {
    && (forall k :: 0 <= k < |c| && k != i && InUse(c[k]) ==> c[k].pageIdx in touched && c[k].pageIdx in tickAt)
    && (forall k :: 0 <= k < |c| && k != i && InUse(c[k]) ==>
          touched[c[k].pageIdx] <= clock && c[k].age == ticks - tickAt[c[k].pageIdx])
    && forall k, j :: 0 <= k < j < |c| && k != i && j != i && InUse(c[k]) && InUse(c[j]) ==>
         touched[c[k].pageIdx] > touched[c[j].pageIdx]
  }

  lemma FrontOfEmptyStamped(c: seq<Entry>, i: nat, touched: map<int, nat>, tickAt: map<int, int>, clock: nat, ticks: int)
    requires i < |c| && !InUse(c[i]) && Stamped(c, touched, tickAt, clock, ticks)
    ensures Stamped(Front(c, i), touched, tickAt, clock, ticks)
  {
    hide Front;
    FrontEach(c, i);
    var r := Front(c, i);
    forall k | 0 <= k < |r| && InUse(r[k]) ensures k > 0 && r[k] == c[From(i, k)] {}
  }

  lemma FrontShows(c: seq<Entry>, i: nat, m: map<int, Cached>)
    requires Shows(c, m) && i < |c|
    ensures Shows(Front(c, i), m)
  {
    hide Front;
    FrontEach(c, i);
    var r := Front(c, i);
    forall p | p in m ensures Listed(r, p) {
      assert Listed(c, p);
      var k :| 0 <= k < |c| && InUse(c[k]) && c[k].pageIdx == p;
      assert InUse(r[Now(i, k)]) && r[Now(i, k)].pageIdx == p;
    }
  }

  lemma Regroup(a: multiset<PageObj>, b: multiset<PageObj>, c: multiset<PageObj>)
    ensures a + (b + c) == (a + b) + c && a + (b + c) == (a + c) + b && a + (b + c) == (b + c) + a
  {
  }

  lemma RefsFirst(c: seq<Entry>)
    ensures Refs(c) == if c == [] then multiset{} else Held(c[0].pageObj) + Refs(c[1..])
  {
  }

  lemma {:induction false} RefsConcat(c: seq<Entry>, d: seq<Entry>)
    ensures Refs(c + d) == Refs(c) + Refs(d)
  {
    hide Refs, Held;
    RefsFirst(c);
    if c == [] {
      assert c + d == d;
    } else {
      RefsConcat(c[1..], d);
      assert (c + d)[0] == c[0] && (c + d)[1..] == c[1..] + d;
      RefsFirst(c + d);
      Regroup(Held(c[0].pageObj), Refs(c[1..]), Refs(d));
    }
  }

  lemma RefsOne(e: Entry)
    ensures Refs([e]) == Held(e.pageObj)
  {
    assert [e][1..] == [] && Refs([]) == multiset{};
  }

  /** All references but that of entry `i`. */
  ghost function Others(c: seq<Entry>, i: nat): multiset<PageObj>
    requires i < |c|
  {
    Refs(c[..i]) + Refs(c[i + 1..])
  }

  lemma RefsSplit(c: seq<Entry>, i: nat)
    requires i < |c|
    ensures Refs(c) == Others(c, i) + Held(c[i].pageObj)
  {
    hide Refs, Held;
    assert c == c[..i] + ([c[i]] + c[i + 1..]);
    RefsMiddle(c[..i], c[i], c[i + 1..]);
  }

  lemma RefsMiddle(a: seq<Entry>, e: Entry, z: seq<Entry>)
    ensures Refs(a + ([e] + z)) == (Refs(a) + Refs(z)) + Held(e.pageObj)
  {
    hide *;
    RefsConcat(a, [e] + z);
    RefsConcat([e], z);
    RefsOne(e);
    Regroup(Refs(a), Held(e.pageObj), Refs(z));
  }

  lemma FrontRefs(c: seq<Entry>, i: nat)
    requires i < |c|
    ensures Refs(Front(c, i)) == Refs(c)
  {
    hide Refs, Held;
    var e := c[i].(age := 0);
    assert Front(c, i) == [e] + (c[..i] + c[i + 1..]);
    RefsConcat([e], c[..i] + c[i + 1..]);
    RefsConcat(c[..i], c[i + 1..]);
    RefsOne(e);
    RefsSplit(c, i);
    Regroup(Held(e.pageObj), Refs(c[..i]), Refs(c[i + 1..]));
  }

  lemma StoredRefs(c: seq<Entry>, v: nat, e: Entry)
    requires v < |c|
    ensures Refs(c[v := e]) == Others(c, v) + Held(e.pageObj)
  {
    hide Refs, Held;
    RefsSplit(c[v := e], v);
    assert c[v := e][..v] == c[..v] && c[v := e][v + 1..] == c[v + 1..];
  }

  lemma NextReleased(c: seq<Entry>, i: nat)
    requires i < |c|
    ensures Refs(c[i + 1..]) == if InUse(c[i]) then Refs(c[i..]) - multiset{c[i].pageObj} else Refs(c[i..])
  {
    hide Refs;
    assert c[i..][0] == c[i] && c[i..][1..] == c[i + 1..];
    RefsFirst(c[i..]);
    PutAndTaken(Refs(c[i + 1..]), c[i].pageObj);
  }

  lemma PutAndTaken(m: multiset<PageObj>, x: PageObj)
    ensures multiset{x} + m - multiset{x} == m && m + multiset{x} - multiset{x} == m && multiset{} + m == m == m + multiset{}
  {
  }

  /** Storing over an entry: its reference, if it held one, is given up and one is taken. */
  lemma ReferenceChanges(c: seq<Entry>, v: nat, e: Entry)
    requires v < |c| && InUse(e)
    ensures InUse(c[v]) ==> Refs(c)[c[v].pageObj] > 0
    ensures Refs(c[v := e]) == (if InUse(c[v]) then Refs(c) - multiset{c[v].pageObj} else Refs(c)) + multiset{e.pageObj}
  {
    hide Refs, Others;
    RefsSplit(c, v);
    StoredRefs(c, v, e);
    PutAndTaken(Others(c, v), c[v].pageObj);
  }

  // ------------------------------------------------------------------ storing and reweighing

  /** An entry replaced by one for a page that no other entry holds. */
  lemma StoredKeeps(c: seq<Entry>, v: nat, e: Entry, touched: map<int, nat>, tickAt: map<int, int>, clock: nat, ticks: int)
    requires Sound(c) && AgesUp(c) && Stamped(c, touched, tickAt, clock, ticks) && v < |c|
    requires InUse(e) && e.pageIdx != -1 && e.age == c[v].age && forall k :: 0 <= k < |c| && k != v ==> c[k].pageIdx != e.pageIdx
    ensures Sound(c[v := e]) && AgesUp(c[v := e]) && StampedBut(c[v := e], v, touched, tickAt, clock, ticks)
  {
  }

  lemma StoredShows(c: seq<Entry>, v: nat, e: Entry, m: map<int, Cached>)
    requires Sound(c) && Shows(c, m) && v < |c|
    requires InUse(e) && forall k :: 0 <= k < |c| && k != v ==> c[k].pageIdx != e.pageIdx
    ensures Shows(c[v := e], (m - {c[v].pageIdx})[e.pageIdx := Cached(e.pageObj, e.weight)])
  {
    var d, m' := c[v := e], (m - {c[v].pageIdx})[e.pageIdx := Cached(e.pageObj, e.weight)];
    forall p | p in m' ensures Listed(d, p) {
      if p == e.pageIdx {
        assert InUse(d[v]) && d[v].pageIdx == p;
      } else {
        assert Listed(c, p);
        var k :| 0 <= k < |c| && InUse(c[k]) && c[k].pageIdx == p;
        assert InUse(d[k]) && d[k].pageIdx == p;
      }
    }
  }

  /** A change of weight changes nothing but what the cache shows for that page. */
  lemma ReweighedKeeps(c: seq<Entry>, i: nat, w: int, touched: map<int, nat>, tickAt: map<int, int>, clock: nat, ticks: int)
    requires Sound(c) && AgesUp(c) && Stamped(c, touched, tickAt, clock, ticks) && i < |c|
    ensures var d := c[i := c[i].(weight := w)];
      Sound(d) && AgesUp(d) && Stamped(d, touched, tickAt, clock, ticks) && Refs(d) == Refs(c)
  {
    hide Sound, AgesUp, Stamped, Refs;
    var d := c[i := c[i].(weight := w)];
    WeightsAside(c, d);
    WeightsAsideStamped(c, d, touched, tickAt, clock, ticks);
    RefsSplit(c, i);
    StoredRefs(c, i, c[i].(weight := w));
  }

  lemma WeightsAside(c: seq<Entry>, d: seq<Entry>)
    requires |d| == |c| && forall k :: 0 <= k < |c| ==> d[k] == c[k].(weight := d[k].weight)
    ensures (Sound(c) ==> Sound(d)) && (AgesUp(c) ==> AgesUp(d))
  {
  }

  lemma WeightsAsideStamped(c: seq<Entry>, d: seq<Entry>, touched: map<int, nat>, tickAt: map<int, int>, clock: nat, ticks: int)
    requires |d| == |c| && forall k :: 0 <= k < |c| ==> d[k] == c[k].(weight := d[k].weight)
    ensures Stamped(c, touched, tickAt, clock, ticks) ==> Stamped(d, touched, tickAt, clock, ticks)
  {
  }

  lemma ReweighedShows(c: seq<Entry>, i: nat, w: int, m: map<int, Cached>)
    requires Sound(c) && Shows(c, m) && i < |c|
    ensures var d := c[i := c[i].(weight := w)];
      Shows(d, if InUse(c[i]) then m[c[i].pageIdx := Cached(c[i].pageObj, w)] else m)
  {
    var d := c[i := c[i].(weight := w)];
    var m' := if InUse(c[i]) then m[c[i].pageIdx := Cached(c[i].pageObj, w)] else m;
    forall k | 0 <= k < |c| ensures d[k] == c[k].(weight := d[k].weight) && (k != i ==> d[k] == c[k]) {}
    forall p | p in m' ensures Listed(d, p) {
      assert Listed(c, p) by { if InUse(c[i]) { assert Listed(c, c[i].pageIdx); } }
      var k :| 0 <= k < |c| && InUse(c[k]) && c[k].pageIdx == p;
      assert InUse(d[k]) && d[k].pageIdx == p;
    }
  }

  /** A new entry stored and moved to the front keeps all that the cache promises. */
  lemma StoredInFront(c: seq<Entry>, v: nat, e: Entry, m: map<int, Cached>,
                      touched: map<int, nat>, tickAt: map<int, int>, clock: nat, ticks: int)
    requires Sound(c) && AgesUp(c) && Stamped(c, touched, tickAt, clock, ticks) && Shows(c, m) && v < |c|
    requires InUse(e) && e.pageIdx != -1 && e.age == c[v].age && forall k :: 0 <= k < |c| ==> c[k].pageIdx != e.pageIdx
    ensures var r := Front(c[v := e], v);
      && Sound(r) && AgesUp(r) && Stamped(r, touched[e.pageIdx := clock + 1], tickAt[e.pageIdx := ticks], clock + 1, ticks)
      && Shows(r, (if InUse(c[v]) then m - {c[v].pageIdx} else m)[e.pageIdx := Cached(e.pageObj, e.weight)])
      && (InUse(c[v]) ==> Refs(c)[c[v].pageObj] > 0)
      && Refs(r) == (if InUse(c[v]) then Refs(c) - multiset{c[v].pageObj} else Refs(c)) + multiset{e.pageObj}
      && (Prefix(c) ==> Prefix(r))
  {
    hide Sound, AgesUp, Stamped, Shows, Refs, Front, StampedBut, Prefix;
    var d := c[v := e];
    ReferenceChanges(c, v, e);
    StoredKeeps(c, v, e, touched, tickAt, clock, ticks);
    StoredShows(c, v, e, m);
    if !InUse(c[v]) { NoSuchPage(c, v, m); }
    FrontSound(d, v);
    FrontShows(d, v, (m - {c[v].pageIdx})[e.pageIdx := Cached(e.pageObj, e.weight)]);
    FrontAges(d, v);
    FrontStamped(d, v, touched, tickAt, clock, ticks);
    FrontRefs(d, v);
    if Prefix(c) { FilledStaysTogether(c, v, e); }
  }

  // ------------------------------------------------------------------ which entry to replace

  /** The entry that gives way: the last empty one, or, when all are in use, one of least weight,
      and among those the one that stands last. */
  ghost predicate Victim(c: seq<Entry>, v: nat) {
    && v < |c|
    && (if InUse(c[v]) then
          && (forall j :: 0 <= j < |c| ==> InUse(c[j]))
          && (forall j :: 0 <= j < |c| && j != v ==> c[v].weight < c[j].weight || (c[v].weight == c[j].weight && j < v))
        else forall j :: v < j < |c| ==> InUse(c[j]))
  }

  /** Of all cached pages `gone` is least in weight and then longest untouched. */
  ghost predicate Evicts(m: map<int, Cached>, touched: map<int, nat>, gone: int) {
    && gone in m && gone in touched
    && forall p :: p in m && p != gone ==> p in touched && LeastAndOldest(m, touched, gone, p)
  }

  ghost predicate LeastAndOldest(m: map<int, Cached>, touched: map<int, nat>, gone: int, p: int)
    requires gone in m && p in m && gone in touched && p in touched
  {
    m[gone].weight < m[p].weight || (m[gone].weight == m[p].weight && touched[gone] < touched[p])
  }

  /** The victim in terms of pages and the times of their last touches. */
  lemma VictimStands(c: seq<Entry>, v: nat, m: map<int, Cached>, touched: map<int, nat>, tickAt: map<int, int>, clock: nat, ticks: int)
    requires Sound(c) && Shows(c, m) && Stamped(c, touched, tickAt, clock, ticks) && Victim(c, v) && InUse(c[v])
    ensures Evicts(m, touched, c[v].pageIdx) && m[c[v].pageIdx].pageObj == c[v].pageObj
  {
    forall p | p in m && p != c[v].pageIdx ensures p in touched && LeastAndOldest(m, touched, c[v].pageIdx, p) {
      assert Listed(c, p);
      var j :| 0 <= j < |c| && InUse(c[j]) && c[j].pageIdx == p;
    }
  }

  // ------------------------------------------------------------------ entries in use standing first

  /** The first `n` entries are in use and no others. */
  ghost predicate Together(c: seq<Entry>, n: nat) {
    n <= |c| && forall i :: 0 <= i < |c| ==> (InUse(c[i]) <==> i < n)
  }

  ghost predicate Prefix(c: seq<Entry>) { exists n :: Together(c, n) }

  ghost predicate AllInUse(c: seq<Entry>) { forall i :: 0 <= i < |c| ==> InUse(c[i]) }

  ghost predicate NoneInUse(c: seq<Entry>) { forall i :: 0 <= i < |c| ==> !InUse(c[i]) }

  /** The slot that a search for `index` finds: the first with that number, be it empty or not. */
  ghost predicate FirstWith(c: seq<Entry>, index: int, i: nat) {
    i < |c| && c[i].pageIdx == index && forall k :: 0 <= k < i ==> c[k].pageIdx != index
  }

  /** Touching an entry in use leaves the entries in use together. */
  lemma FrontStaysTogether(c: seq<Entry>, i: nat)
    requires Prefix(c) && i < |c| && InUse(c[i])
    ensures Prefix(Front(c, i))
  {
    hide Front;
    FrontEach(c, i);
    var n: nat :| Together(c, n);
    assert Together(Front(c, i), n);
  }

  /** Filling the last slot that is empty, and moving it to the front, leaves them together. */
  lemma FilledStaysTogether(c: seq<Entry>, v: nat, e: Entry)
    requires Prefix(c) && v < |c| && InUse(e)
    ensures Prefix(Front(c[v := e], v))
  {
    hide Front;
    FrontEach(c[v := e], v);
    var n: nat :| Together(c, n);
    assert Together(Front(c[v := e], v), if v < n then n else n + 1);
  }

  /** The lookup of -1: it finds the first empty slot and moves it before those in use. They stay
      together exactly when the cache is full, so that nothing is found, or altogether empty. */
  lemma EmptyFrontIff(c: seq<Entry>, i: nat)
    requires Prefix(c) && Sound(c) && FirstWith(c, -1, i)
    ensures Prefix(Front(c, i)) <==> NoneInUse(c)
  {
    hide Front;
    FrontEach(c, i);
    var n: nat :| Together(c, n);
    assert !InUse(Front(c, i)[0]);
    if NoneInUse(c) {
      assert Together(Front(c, i), 0);
    } else {
      assert n > 0 && InUse(c[0]) && i > 0;
      assert InUse(Front(c, i)[1]) by { assert From(i, 1) == 0; }
      forall k: nat ensures !Together(Front(c, i), k) {}
    }
  }

  /** A cache of two with one page: a lookup of -1 puts the empty slot before the page. */
  lemma MinusOneParts(o: PageObj)
    requires o != NULL
    ensures var c := [Entry(7, 0, 0, o), EMPTY];
      Prefix(c) && Sound(c) && FirstWith(c, -1, 1) && Front(c, 1) == [EMPTY, Entry(7, 0, 0, o)] && !Prefix(Front(c, 1))
  {
    var c := [Entry(7, 0, 0, o), EMPTY];
    assert Together(c, 1);
    assert Front(c, 1) == [EMPTY, Entry(7, 0, 0, o)];
    EmptyFrontIff(c, 1);
    assert InUse(c[0]);
  }

  // ------------------------------------------------------------------ the cache

  class Cache {
    const cache: array<Entry>
    var cacheSize: nat
    var cacheMaxAge: int
    /** What is cached; references held; time and tick of each page's last touch. */
    ghost var contents: map<int, Cached>
    ghost var held: multiset<PageObj>
    ghost var touched: map<int, nat>
    ghost var tickAt: map<int, int>
    ghost var clock: nat
    ghost var ticks: int

    ghost predicate Valid()
      reads this, cache
    {
      && cache.Length == MAX_CACHE_PAGES && cacheSize <= MAX_CACHE_PAGES && cacheMaxAge >= 0
      && Sound(Slots()) && AgesUp(Slots()) && Stamped(Slots(), touched, tickAt, clock, ticks)
      && Shows(Slots(), contents) && held == Refs(Slots())
      && forall i :: cacheSize <= i < MAX_CACHE_PAGES ==> !InUse(cache[i])
    }

    /** The entries that the cache may use at its size. */
    ghost function Slots(): seq<Entry>
      requires cacheSize <= cache.Length
      reads `cacheSize, cache
    {
      cache[..cacheSize]
    }

    constructor ()
      ensures Valid() && fresh(cache) && cacheSize == 0 && contents == map[] && held == multiset{}
    {
      cache := new Entry[MAX_CACHE_PAGES](_ => EMPTY);
      cacheSize, cacheMaxAge := 0, MAX_CACHE_AGE;
      contents, held, touched, tickAt, clock, ticks := map[], multiset{}, map[], map[], 0, 0;
    }

    /** CookfsPagesPageCacheMoveToTop. */
    method MoveToTop(index: nat)
      requires index < cacheSize <= cache.Length
      modifies cache
      ensures Slots() == Front(old(Slots()), index)
      ensures forall i :: cacheSize <= i < cache.Length ==> cache[i] == old(cache[i])
    {
      ghost var c := Slots();
      cache[index] := cache[index].(age := 0);
      if index == 0 {
        assert Slots() == Front(c, 0);
        return;
      }
      var saved := cache[index];
      var k := index;
      while k > 0
        invariant 0 <= k <= index && saved == c[index].(age := 0)
        invariant forall i :: 0 <= i < k ==> cache[i] == c[i]
        invariant forall i :: k < i <= index ==> cache[i] == c[i - 1]
        invariant forall i :: index < i < cacheSize ==> cache[i] == c[i]
        invariant forall i :: cacheSize <= i < cache.Length ==> cache[i] == old(cache[i])
      {
        cache[k] := cache[k - 1];
        k := k - 1;
      }
      cache[0] := saved;
      assert Slots() == Front(c, index);
    }

    /** The search for a number: the first slot that has it, or cacheSize. Every empty slot has
        the number -1. */
    method Find(index: int) returns (i: nat)
      requires cacheSize <= cache.Length
      ensures i <= cacheSize && (i < cacheSize ==> FirstWith(Slots(), index, i))
      ensures i == cacheSize ==> forall k :: 0 <= k < cacheSize ==> Slots()[k].pageIdx != index
    {
      i := 0;
      while i < cacheSize
        invariant i <= cacheSize && forall k :: 0 <= k < i ==> Slots()[k].pageIdx != index
      {
        assert Slots()[i] == cache[i];
        if cache[i].pageIdx == index { return; }
        i := i + 1;
      }
    }

    /** A page is cached if and only if some slot has its number, and -1 is no page. */
    lemma CachedIff(index: int)
      requires Valid()
      ensures index in contents <==> index != -1 && exists k :: 0 <= k < cacheSize && Slots()[k].pageIdx == index
      ensures forall k :: 0 <= k < cacheSize && index in contents && Slots()[k].pageIdx == index ==>
        InUse(Slots()[k]) && contents[index] == Cached(Slots()[k].pageObj, Slots()[k].weight)
    {
      hide AgesUp, Stamped, Refs;
      if index in contents { assert Listed(Slots(), index); }
      if k :| 0 <= k < cacheSize && Slots()[k].pageIdx == index && index != -1 { assert InUse(Slots()[k]); }
    }

    /** An entry in use is touched: given a weight and moved to the front. */
    method Touch(i: nat, weight: int)
      requires Valid() && i < cacheSize && InUse(cache[i])
      modifies `contents, `touched, `tickAt, `clock, cache
      ensures Valid() && contents == old(contents)[old(cache[i].pageIdx) := Cached(old(cache[i].pageObj), weight)]
      ensures clock == old(clock) + 1 && touched == old(touched)[old(cache[i].pageIdx) := clock]
      ensures tickAt == old(tickAt)[old(cache[i].pageIdx) := ticks] && (old(Prefix(Slots())) ==> Prefix(Slots()))
    {
      hide Sound, AgesUp, Stamped, Shows, Refs, Front, StampedBut, Prefix;
      ghost var c := Slots();
      ReweighedKeeps(c, i, weight, touched, tickAt, clock, ticks);
      ReweighedShows(c, i, weight, contents);
      cache[i] := cache[i].(weight := weight);
      ghost var d := Slots();
      assert d == c[i := c[i].(weight := weight)];
      contents := contents[c[i].pageIdx := Cached(c[i].pageObj, weight)];
      FrontSound(d, i);
      FrontShows(d, i, contents);
      FrontAges(d, i);
      StampedAll(d, i, touched, tickAt, clock, ticks);
      FrontStamped(d, i, touched, tickAt, clock, ticks);
      FrontRefs(d, i);
      if Prefix(c) { ReweighedTogether(c, i, weight); FrontStaysTogether(d, i); }
      touched, tickAt, clock := touched[c[i].pageIdx := clock + 1], tickAt[c[i].pageIdx := ticks], clock + 1;
      MoveToTop(i);
    }

    /** The same happens to an empty slot; nothing that is cached changes. */
    method TouchEmpty(i: nat, weight: int)
      requires Valid() && FirstWith(Slots(), -1, i)
      modifies cache
      ensures Valid() && (old(Prefix(Slots())) ==> (Prefix(Slots()) <==> old(NoneInUse(Slots()))))
    {
      hide Sound, AgesUp, Stamped, Shows, Refs, Front, Prefix;
      ghost var c := Slots();
      FirstIsEmpty(c, i);
      ReweighedKeeps(c, i, weight, touched, tickAt, clock, ticks);
      ReweighedShows(c, i, weight, contents);
      cache[i] := cache[i].(weight := weight);
      ghost var d := Slots();
      assert d == c[i := c[i].(weight := weight)];
      FrontSound(d, i);
      FrontShows(d, i, contents);
      FrontAges(d, i);
      FrontOfEmptyStamped(d, i, touched, tickAt, clock, ticks);
      FrontRefs(d, i);
      if Prefix(c) { ReweighedTogether(c, i, weight); EmptyFrontIff(d, i); }
      MoveToTop(i);
    }

    /** Cookfs_PageCacheGet: the page if it is cached, which is then the last touched; its weight
        changes only on request. A lookup of -1 finds no page, but moves an empty slot: entries in
        use that stood together still do if and only if the number was another one, or there was
        no empty slot to find, or nothing else. */
    method Get(index: int, update: bool, weight: int) returns (rc: PageObj)
      requires Valid()
      modifies `contents, `touched, `tickAt, `clock, cache
      ensures Valid() && rc == if index in old(contents) then old(contents)[index].pageObj else NULL
      ensures index in old(contents) ==> clock == old(clock) + 1 && touched == old(touched)[index := clock]
      ensures index in old(contents) ==> tickAt == old(tickAt)[index := ticks]
      ensures index in old(contents) ==> contents == if update then old(contents)[index := old(contents)[index].(weight := weight)] else old(contents)
      ensures index !in old(contents) ==>
        contents == old(contents) && clock == old(clock) && touched == old(touched) && tickAt == old(tickAt)
      ensures index !in old(contents) && index != -1 ==> Slots() == old(Slots())
      ensures old(Prefix(Slots())) ==>
        (Prefix(Slots()) <==> index != -1 || old(AllInUse(Slots())) || old(NoneInUse(Slots())))
    {
      hide Sound, AgesUp, Stamped, Refs, Prefix, Shows;
      CachedIff(index);
      if cacheSize <= 0 { return NULL; }
      var i := Find(index);
      if i == cacheSize {
        if index == -1 { NoneEmpty(Slots()); }
        return NULL;
      }
      assert Slots()[i] == cache[i];
      rc := cache[i].pageObj;
      var w := if update then weight else cache[i].weight;
      if index == -1 {
        FirstIsEmpty(Slots(), i);
        TouchEmpty(i, w);
      } else {
        Touch(i, w);
      }
    }

    /** The scan for the entry to replace, from the end of the array. */
    method Choose() returns (newIdx: nat)
      requires Valid() && cacheSize > 0
      ensures Victim(Slots(), newIdx)
    {
      hide Sound, Stamped, Refs, Shows;
      newIdx := cacheSize - 1;
      if cache[newIdx].pageObj == NULL { return; }
      var oldWeight, oldAge := cache[newIdx].weight, cache[newIdx].age;
      var i := cacheSize - 2;
      while i >= 0
        invariant -1 <= i < newIdx < cacheSize && oldWeight == cache[newIdx].weight && oldAge == cache[newIdx].age
        invariant forall j :: i < j < cacheSize ==> InUse(cache[j])
        invariant forall j :: i < j < cacheSize && j != newIdx ==>
          oldWeight < cache[j].weight || (oldWeight == cache[j].weight && j < newIdx)
      {
        if cache[i].pageObj == NULL {
          newIdx := i;
          return;
        }
        assert Slots()[i].age <= Slots()[newIdx].age;
        if cache[i].weight > oldWeight {
        } else if cache[i].weight == oldWeight && cache[i].age <= oldAge {
        } else {
          newIdx, oldWeight, oldAge := i, cache[i].weight, cache[i].age;
        }
        i := i - 1;
      }
    }

    /** Cookfs_PageCacheSet: a page already cached keeps its data and is touched; a new one takes
        an empty slot if there is any, and otherwise the place of the page that is least in
        weight and, among those, was touched longest ago. */
    method Set(idx: int, obj: PageObj, weight: int) returns (ghost gone: int)
      requires Valid() && idx != -1 && obj != NULL
      modifies this, cache
      ensures Valid() && cacheSize == old(cacheSize) && cacheMaxAge == old(cacheMaxAge) && ticks == old(ticks)
      ensures old(Prefix(Slots())) ==> Prefix(Slots())
      ensures cacheSize == 0 ==> contents == old(contents) && held == old(held)
      ensures cacheSize > 0 ==> clock == old(clock) + 1 && touched == old(touched)[idx := clock] && tickAt == old(tickAt)[idx := ticks]
      ensures cacheSize > 0 && idx in old(contents) ==> held == old(held)
      ensures cacheSize > 0 && idx in old(contents) ==> contents == old(contents)[idx := Cached(old(contents)[idx].pageObj, weight)]
      ensures cacheSize > 0 && idx !in old(contents) && !old(AllInUse(Slots())) ==>
        contents == old(contents)[idx := Cached(obj, weight)] && held == old(held) + multiset{obj}
      ensures cacheSize > 0 && idx !in old(contents) && old(AllInUse(Slots())) ==>
        && Evicts(old(contents), old(touched), gone)
        && contents == (old(contents) - {gone})[idx := Cached(obj, weight)]
        && old(held)[old(contents)[gone].pageObj] > 0
        && held == old(held) - multiset{old(contents)[gone].pageObj} + multiset{obj}
    {
      hide Sound, AgesUp, Stamped, Refs, Shows, Victim, Evicts, Prefix;
      gone := -1;
      CachedIff(idx);
      if cacheSize <= 0 { return; }
      var i := Find(idx);
      if i < cacheSize {
        assert Slots()[i] == cache[i];
        Touch(i, weight);
        return;
      }
      var v := Choose();
      EmptyOrFull(Slots(), v);
      assert Slots()[v] == cache[v];
      gone := cache[v].pageIdx;
      Store(v, idx, obj, weight);
    }

    /** The new page takes slot `v`; the reference to what was there, if anything, is given up. */
    method Store(v: nat, idx: int, obj: PageObj, weight: int)
      requires Valid() && v < cacheSize && Victim(Slots(), v) && idx != -1 && obj != NULL
      requires forall k :: 0 <= k < cacheSize ==> Slots()[k].pageIdx != idx
      modifies `contents, `held, `touched, `tickAt, `clock, cache
      ensures Valid() && clock == old(clock) + 1 && touched == old(touched)[idx := clock] && tickAt == old(tickAt)[idx := ticks]
      ensures old(Prefix(Slots())) ==> Prefix(Slots())
      ensures !old(InUse(cache[v])) ==> contents == old(contents)[idx := Cached(obj, weight)] && held == old(held) + multiset{obj}
      ensures old(InUse(cache[v])) ==>
        && Evicts(old(contents), old(touched), old(cache[v].pageIdx))
        && contents == (old(contents) - {old(cache[v].pageIdx)})[idx := Cached(obj, weight)]
        && old(held)[old(contents)[old(cache[v].pageIdx)].pageObj] > 0
        && held == old(held) - multiset{old(contents)[old(cache[v].pageIdx)].pageObj} + multiset{obj}
    {
      hide Sound, AgesUp, Stamped, Shows, Refs, Front, Victim, Prefix, Evicts;
      ghost var c := Slots();
      assert c[v] == cache[v];
      if cache[v].pageObj != NULL { VictimStands(c, v, contents, touched, tickAt, clock, ticks); }
      StoredInFront(c, v, Entry(idx, weight, cache[v].age, obj), contents, touched, tickAt, clock, ticks);
      contents := (if InUse(c[v]) then contents - {c[v].pageIdx} else contents)[idx := Cached(obj, weight)];
      touched, tickAt, clock := touched[idx := clock + 1], tickAt[idx := ticks], clock + 1;
      ghost var h := held;
      Overwrite(v, idx, obj, weight);
      assert Slots() == Front(c[v := Entry(idx, weight, c[v].age, obj)], v);
      assert held == Refs(Slots()) by { assert h == Refs(c); }
    }

    /** The slot itself, with its reference counts, moved to the front. */
    method Overwrite(v: nat, idx: int, obj: PageObj, weight: int)
      requires cacheSize <= cache.Length && v < cacheSize && obj != NULL
      modifies `held, cache
      ensures Slots() == Front(old(Slots())[v := Entry(idx, weight, old(cache[v].age), obj)], v)
      ensures held == (if old(InUse(cache[v])) then old(held) - multiset{old(cache[v].pageObj)} else old(held)) + multiset{obj}
      ensures forall i :: cacheSize <= i < cache.Length ==> cache[i] == old(cache[i])
    {
      ghost var c := Slots();
      if cache[v].pageObj != NULL { held := held - multiset{cache[v].pageObj}; }
      cache[v] := Entry(idx, weight, cache[v].age, obj);
      held := held + multiset{obj};
      assert Slots() == c[v := Entry(idx, weight, c[v].age, obj)];
      MoveToTop(v);
    }

    /** Cookfs_PagesTickTock: everything is one tick older, and what has reached the maximal age
        loses its weight. */
    method TickTock() returns (maxAge: int)
      requires Valid()
      modifies `contents, `ticks, cache
      ensures Valid() && maxAge == cacheMaxAge && ticks == old(ticks) + 1 && (old(Prefix(Slots())) ==> Prefix(Slots()))
      ensures contents.Keys == old(contents).Keys <= tickAt.Keys
      ensures forall p :: p in contents ==>
        contents[p] == Cached(old(contents)[p].pageObj, if ticks - tickAt[p] >= maxAge then 0 else old(contents)[p].weight)
    {
      hide Sound, AgesUp, Stamped, Refs, Shows, Prefix;
      maxAge := cacheMaxAge;
      ghost var c := Slots();
      for i := 0 to cacheSize
        modifies cache
        invariant forall k :: 0 <= k < i ==> cache[k] == Ticked(c[k], maxAge)
        invariant forall k :: i <= k < cacheSize ==> cache[k] == c[k]
        invariant forall k :: cacheSize <= k < cache.Length ==> cache[k] == old(cache[k])
      {
        cache[i] := cache[i].(age := cache[i].age + 1);
        if cache[i].age >= maxAge { cache[i] := cache[i].(weight := 0); }
      }
      TickKeeps(c, Slots(), maxAge, touched, tickAt, clock, ticks, contents);
      contents := map p | p in contents :: Faded(contents[p], p in tickAt && ticks + 1 - tickAt[p] >= maxAge);
      ticks := ticks + 1;
    }

    /** Cookfs_PagesSetMaxAge: a negative age is ignored. */
    method SetMaxAge(maxAge: int) returns (ret: int)
      requires Valid()
      modifies `cacheMaxAge
      ensures Valid() && cacheMaxAge == (if maxAge >= 0 then maxAge else old(cacheMaxAge)) && ret == cacheMaxAge
    {
      hide Sound, AgesUp, Stamped, Refs, Shows;
      if maxAge >= 0 { cacheMaxAge := maxAge; }
      ret := cacheMaxAge;
    }

    /** Cookfs_PagesSetCacheSize: the size is brought into 0..256; every entry gives up the
        reference it holds, and at the end none is held. */
    method SetCacheSize(size: int)
      requires Valid()
      modifies this, cache
      ensures Valid() && contents == map[] && held == multiset{} && Prefix(Slots())
      ensures cacheSize == if size < 0 then 0 else if size > MAX_CACHE_PAGES then MAX_CACHE_PAGES else size
    {
      hide Sound, AgesUp, Stamped, Refs, Shows, Prefix;
      var bounded := if size < 0 then 0 else if size > MAX_CACHE_PAGES then MAX_CACHE_PAGES else size;
      AllHeld();
      ReleaseAll(cache[..]);
      cacheSize := bounded;
      contents, touched, tickAt := map[], map[], map[];
      Cleared(Slots(), clock, ticks);
    }

    method ReleaseAll(ghost all: seq<Entry>)
      requires cache.Length == MAX_CACHE_PAGES && all == cache[..] && held == Refs(all[0..])
      modifies `held, cache
      ensures held == multiset{} && forall k :: 0 <= k < MAX_CACHE_PAGES ==> cache[k] == EMPTY
    {
      hide Refs;
      for i := 0 to MAX_CACHE_PAGES
        invariant held == Refs(all[i..])
        invariant (forall k :: 0 <= k < i ==> cache[k] == EMPTY) && forall k :: i <= k < MAX_CACHE_PAGES ==> cache[k] == all[k]
      {
        NextReleased(all, i);
        if cache[i].pageObj != NULL { held := held - multiset{cache[i].pageObj}; }
        cache[i] := EMPTY;
      }
      RefsFirst(all[MAX_CACHE_PAGES..]);
    }

    /** Beyond the size of the cache no references are held. */
    lemma AllHeld()
      requires Valid()
      ensures held == Refs(cache[..][0..])
    {
      hide Sound, AgesUp, Stamped, Refs, Shows;
      assert cache[..][0..] == cache[..cacheSize] + cache[cacheSize..];
      RefsConcat(cache[..cacheSize], cache[cacheSize..]);
      NoRefs(cache[cacheSize..]);
    }

    /** Cookfs_PagesIsCached. */
    method IsCached(index: int) returns (ret: bool)
      requires Valid()
      ensures ret <==> index in contents
    {
      hide AgesUp, Stamped, Refs, Shows;
      ret := false;
      CachedIff(index);
      for i := 0 to cacheSize
        invariant !ret && forall k :: 0 <= k < i ==> Slots()[k].pageIdx != index || !InUse(Slots()[k])
      {
        assert Slots()[i] == cache[i];
        if cache[i].pageIdx == index && cache[i].pageObj != NULL { return true; }
      }
    }
  }

  // ------------------------------------------------------------------ runs

  datatype Op = Lookup(index: int, update: bool, weight: int) | Add(idx: int, obj: PageObj, weight: int) | Tick | Resize(size: int)

  /** Any run of operations on a cache whose entries in use stand together: as long as -1 is not
      looked up they stand together at its end, in the order of their last touches. */
  method Play(c: Cache, ops: seq<Op>)
    requires c.Valid() && forall k :: 0 <= k < |ops| && ops[k].Add? ==> ops[k].idx != -1 && ops[k].obj != NULL
    modifies c, c.cache
    ensures c.Valid()
    ensures old(Prefix(c.Slots())) && (forall k :: 0 <= k < |ops| && ops[k].Lookup? ==> ops[k].index != -1) ==> Prefix(c.Slots())
  {
    hide Sound, AgesUp, Stamped, Refs, Shows, Prefix, Evicts, Front;
    for n := 0 to |ops|
      invariant c.Valid()
      invariant old(Prefix(c.Slots())) && (forall k :: 0 <= k < n && ops[k].Lookup? ==> ops[k].index != -1) ==> Prefix(c.Slots())
    {
      match ops[n] {
        case Lookup(index, update, weight) => var rc := c.Get(index, update, weight);
        case Add(idx, obj, weight) => ghost var gone := c.Set(idx, obj, weight);
        case Tick => var maxAge := c.TickTock();
        case Resize(size) => c.SetCacheSize(size);
      }
    }
  }

  lemma StampedAll(c: seq<Entry>, i: nat, touched: map<int, nat>, tickAt: map<int, int>, clock: nat, ticks: int)
    requires Stamped(c, touched, tickAt, clock, ticks)
    ensures StampedBut(c, i, touched, tickAt, clock, ticks)
  {
  }

  lemma ReweighedTogether(c: seq<Entry>, i: nat, w: int)
    requires Prefix(c) && i < |c|
    ensures var d := c[i := c[i].(weight := w)];
      Prefix(d) && (NoneInUse(d) <==> NoneInUse(c)) && (FirstWith(c, -1, i) ==> FirstWith(d, -1, i))
  {
    var d := c[i := c[i].(weight := w)];
    forall k | 0 <= k < |c| ensures d[k] == c[k].(weight := d[k].weight) {}
    var n: nat :| Together(c, n);
    assert Together(d, n);
  }

  lemma FirstIsEmpty(c: seq<Entry>, i: nat)
    requires Sound(c) && FirstWith(c, -1, i)
    ensures !InUse(c[i]) && (AllInUse(c) ==> false)
  {
  }

  lemma NoneEmpty(c: seq<Entry>)
    requires Sound(c) && forall k :: 0 <= k < |c| ==> c[k].pageIdx != -1
    ensures AllInUse(c)
  {
  }

  lemma EmptyOrFull(c: seq<Entry>, v: nat)
    requires Victim(c, v)
    ensures v < |c| && (InUse(c[v]) <==> AllInUse(c))
  {
  }

  lemma NoSuchPage(c: seq<Entry>, v: nat, m: map<int, Cached>)
    requires Sound(c) && Shows(c, m) && v < |c| && !InUse(c[v])
    ensures c[v].pageIdx == -1 && m - {-1} == m
  {
    forall p | p in m ensures p != -1 { assert Listed(c, p); }
  }

  lemma {:induction false} NoRefs(c: seq<Entry>)
    requires NoneInUse(c)
    ensures Refs(c) == multiset{}
  {
    if c != [] { NoRefs(c[1..]); }
  }

  function Faded(e: Cached, stale: bool): Cached { if stale then e.(weight := 0) else e }

  function Ticked(e: Entry, maxAge: int): Entry {
    e.(age := e.age + 1, weight := if e.age + 1 >= maxAge then 0 else e.weight)
  }

  lemma Cleared(c: seq<Entry>, clock: nat, ticks: int)
    requires forall k :: 0 <= k < |c| ==> c[k] == EMPTY
    ensures Sound(c) && AgesUp(c) && Stamped(c, map[], map[], clock, ticks)
    ensures Shows(c, map[]) && Refs(c) == multiset{} && Prefix(c)
  {
    NoRefs(c);
    assert Together(c, 0);
  }

  lemma TickShape(c: seq<Entry>, d: seq<Entry>, maxAge: int)
    requires |d| == |c| && (forall k :: 0 <= k < |c| ==> d[k] == Ticked(c[k], maxAge)) && Sound(c) && AgesUp(c)
    ensures Sound(d) && AgesUp(d) && (Prefix(c) ==> Prefix(d))
  {
    forall k | 0 <= k < |c| ensures d[k].pageIdx == c[k].pageIdx && d[k].pageObj == c[k].pageObj && d[k].age == c[k].age + 1 {}
    if Prefix(c) {
      var n: nat :| Together(c, n);
      assert Together(d, n);
    }
  }

  lemma {:induction false} TickRefs(c: seq<Entry>, d: seq<Entry>)
    requires |d| == |c| && forall k :: 0 <= k < |c| ==> d[k].pageObj == c[k].pageObj
    ensures Refs(d) == Refs(c)
  {
    if c != [] { TickRefs(c[1..], d[1..]); }
  }

  lemma TickStamps(c: seq<Entry>, d: seq<Entry>, maxAge: int, touched: map<int, nat>, tickAt: map<int, int>, clock: nat, ticks: int)
    requires |d| == |c| && (forall k :: 0 <= k < |c| ==> d[k] == Ticked(c[k], maxAge)) && Stamped(c, touched, tickAt, clock, ticks)
    ensures Stamped(d, touched, tickAt, clock, ticks + 1)
  {
    forall k | 0 <= k < |c| ensures d[k].pageIdx == c[k].pageIdx && d[k].age == c[k].age + 1 && d[k].pageObj == c[k].pageObj {}
  }

  lemma TickShows(c: seq<Entry>, d: seq<Entry>, maxAge: int, touched: map<int, nat>, tickAt: map<int, int>, clock: nat,
                  ticks: int, m: map<int, Cached>)
    requires |d| == |c| && forall k :: 0 <= k < |c| ==> d[k] == Ticked(c[k], maxAge)
    requires Stamped(c, touched, tickAt, clock, ticks) && Shows(c, m)
    ensures Shows(d, map p | p in m :: Faded(m[p], p in tickAt && ticks + 1 - tickAt[p] >= maxAge))
  {
    var m' := map p | p in m :: Faded(m[p], p in tickAt && ticks + 1 - tickAt[p] >= maxAge);
    forall k | 0 <= k < |d| && InUse(d[k]) ensures d[k].pageIdx in m' && m'[d[k].pageIdx] == Cached(d[k].pageObj, d[k].weight) {
      assert d[k] == Ticked(c[k], maxAge) && c[k].age == ticks - tickAt[c[k].pageIdx];
    }
    forall p | p in m' ensures Listed(d, p) {
      assert Listed(c, p);
      var k :| 0 <= k < |c| && InUse(c[k]) && c[k].pageIdx == p;
      assert d[k] == Ticked(c[k], maxAge);
    }
  }

  lemma TickKeeps(c: seq<Entry>, d: seq<Entry>, maxAge: int, touched: map<int, nat>, tickAt: map<int, int>, clock: nat,
                  ticks: int, m: map<int, Cached>)
    requires |d| == |c| && forall k :: 0 <= k < |c| ==> d[k] == Ticked(c[k], maxAge)
    requires Sound(c) && AgesUp(c) && Stamped(c, touched, tickAt, clock, ticks) && Shows(c, m)
    ensures Sound(d) && AgesUp(d) && Stamped(d, touched, tickAt, clock, ticks + 1) && Refs(d) == Refs(c) && (Prefix(c) ==> Prefix(d))
    ensures Shows(d, map p | p in m :: Faded(m[p], p in tickAt && ticks + 1 - tickAt[p] >= maxAge))
    ensures m.Keys <= tickAt.Keys
  {
    forall p | p in m ensures p in tickAt { assert Listed(c, p); }
    TickShape(c, d, maxAge);
    TickStamps(c, d, maxAge, touched, tickAt, clock, ticks);
    TickShows(c, d, maxAge, touched, tickAt, clock, ticks, m);
    TickRefs(c, d);
  }
}
