/** Which package snapshots the Pages store keeps, and that a staged release
    which becomes the newest of its channel still has its packages. */
module Retention {
  import opened Shared
  import opened Releases
  import opened ApkVersions

  /** A version tag of an OS release; `spelling` tells tags apart that write the
      same version with other leading zeros. */
  datatype Tagged = Tagged(version: Version, beta: Option<nat>, spelling: nat)

  /** A staged snapshot: an OS release or a version of an add-on. */
  datatype Snapshot = Os(tag: Tagged) | Addon(name: string, numbers: seq<nat>, build: nat)

  /** `order` of two OS releases. */
  function TagOrder(a: Tagged, b: Tagged): int {
    KeyOrder(Key(a.version, a.beta), Key(b.version, b.beta))
  }

  /** A tag as it was parsed. */
  function Parse(t: Name, spelling: nat): Tagged
    requires Versioned(t)
  {
    Tagged(KeyOf(t).version, KeyOf(t).beta, spelling)
  }

  /** Its order is that of the release. */
  lemma TagOrderIs(a: Name, b: Name, s: nat, t: nat)
    requires Versioned(a) && Versioned(b)
    ensures TagOrder(Parse(a, s), Parse(b, t)) == Order(a, b)
  {
  }

  /** The comparison of two items of one group by version. */
  function Cmp(a: Snapshot, b: Snapshot): int {
    if a.Os? && b.Os? then TagOrder(a.tag, b.tag)
    else if a.Addon? && b.Addon? then First(CompareNumbers(a.numbers, b.numbers, 0), Sign(a.build, b.build))
    else Sign(if a.Os? then 1 else 0, if b.Os? then 1 else 0)
  }

  /** Of two versions of an add-on the one whose numbers come first is older, and
      of equal numbers the one with the lower build. */
  lemma AddonsOrdered(a: Snapshot, b: Snapshot)
    requires a.Addon? && b.Addon?
    ensures Cmp(a, b) < 0 <==> NumbersBefore(a.numbers, b.numbers) || (a.numbers == b.numbers && a.build < b.build)
  {
    NumbersFirst(a.numbers, b.numbers, 0);
  }

  lemma CmpOrder(a: Snapshot, b: Snapshot, c: Snapshot)
    ensures Cmp(b, a) == -Cmp(a, b) && Chained(Cmp(a, b), Cmp(b, c), Cmp(a, c))
  {
    if a.Addon? && b.Addon? {
      NumbersOpposite(a.numbers, b.numbers, 0);
      if c.Addon? {
        NumbersOrder(a.numbers, b.numbers, c.numbers, 0);
      }
    }
  }

  /** At least as new, and newer, chained. */
  lemma CmpDown(a: Snapshot, b: Snapshot, c: Snapshot)
    requires Cmp(a, b) >= 0 && Cmp(b, c) >= 0
    ensures Cmp(a, c) >= 0 && (Cmp(a, b) > 0 || Cmp(b, c) > 0 ==> Cmp(a, c) > 0)
  {
    CmpOrder(a, b, c);
    CmpOrder(c, b, a);
    CmpOrder(b, c, a);
    CmpOrder(a, c, b);
  }

  // -------------------------------------------------------------------- groups

  datatype Group = AddonGroup(name: string) | OsGroup(beta: bool, active: bool)

  function GroupOf(x: Snapshot, published: seq<Tagged>): Group {
    if x.Addon? then AddonGroup(x.name) else OsGroup(x.tag.beta.Some?, x.tag in published)
  }

  /** The items of a group among the first `n`, in their order. */
  function Pick(items: seq<Snapshot>, g: Group, published: seq<Tagged>, n: nat): (r: seq<Snapshot>)
    requires n <= |items|
  {
    if n == 0 then []
    else
      var rest := Pick(items, g, published, n - 1);
      if GroupOf(items[n - 1], published) == g then rest + [items[n - 1]] else rest
  }

  /** The groups of the first `n` items, as they appear. */
  function Keys(items: seq<Snapshot>, published: seq<Tagged>, n: nat): (k: seq<Group>)
    requires n <= |items|
  {
    if n == 0 then []
    else
      var rest := Keys(items, published, n - 1);
      var g := GroupOf(items[n - 1], published);
      if g in rest then rest else rest + [g]
  }

  // ------------------------------------------------------------------- sorting

  /** Where `x` goes: behind everything that is at least as new. */
  function Place(x: Snapshot, s: seq<Snapshot>, i: nat): (p: nat)
    requires i <= |s|
    ensures i <= p <= |s|
    ensures forall k :: i <= k < p ==> Cmp(x, s[k]) <= 0
    ensures p < |s| ==> Cmp(x, s[p]) > 0
    decreases |s| - i
  {
    if i == |s| || Cmp(x, s[i]) > 0 then i else Place(x, s, i + 1)
  }

  function Insert(x: Snapshot, s: seq<Snapshot>): (r: seq<Snapshot>)
    ensures |r| == |s| + 1
  {
    var p := Place(x, s, 0);
    s[..p] + [x] + s[p..]
  }

  /** The first `n` items, newest first; equally new ones keep their order. */
  function Sort(items: seq<Snapshot>, n: nat): (r: seq<Snapshot>)
    requires n <= |items|
    ensures |r| == n
  {
    if n == 0 then [] else Insert(items[n - 1], Sort(items, n - 1))
  }

  predicate Descending(s: seq<Snapshot>) {
    forall i, j :: 0 <= i < j < |s| ==> Cmp(s[i], s[j]) >= 0
  }

  lemma InsertDescending(x: Snapshot, s: seq<Snapshot>)
    requires Descending(s)
    ensures Descending(Insert(x, s))
  {
    var p, r := Place(x, s, 0), Insert(x, s);
    forall i, j | 0 <= i < j < |r| ensures Cmp(r[i], r[j]) >= 0 {
      if i < p && j == p {
        CmpOrder(x, s[i], x);
      } else if i == p {
        if p < j - 1 {
          CmpDown(x, s[p], s[j - 1]);
        }
      }
    }
  }

  lemma {:induction false} SortDescending(items: seq<Snapshot>, n: nat)
    requires n <= |items|
    ensures Descending(Sort(items, n))
  {
    if n > 0 {
      SortDescending(items, n - 1);
      InsertDescending(items[n - 1], Sort(items, n - 1));
    }
  }

  lemma InsertLast(x: Snapshot, s: seq<Snapshot>)
    requires forall k :: 0 <= k < |s| ==> Cmp(x, s[k]) <= 0
    ensures Insert(x, s) == s + [x]
  {
    assert Place(x, s, 0) == |s|;
    assert s[..|s|] == s && s[|s|..] == [];
  }

  /** A list that is sorted already stays as it is. */
  lemma {:induction false} SortSorted(s: seq<Snapshot>, n: nat)
    requires Descending(s) && n <= |s|
    ensures Sort(s, n) == s[..n]
  {
    if n > 0 {
      SortSorted(s, n - 1);
      LastGoesLast(s[..n - 1], s[n - 1], s, n - 1);
    }
  }

  lemma LastGoesLast(init: seq<Snapshot>, x: Snapshot, s: seq<Snapshot>, n: nat)
    requires Descending(s) && n < |s| && init == s[..n] && x == s[n]
    ensures Insert(x, init) == s[..n + 1]
  {
    forall k | 0 <= k < n ensures Cmp(x, init[k]) <= 0 {
      CmpOrder(x, s[k], x);
    }
    InsertLast(x, init);
  }

  // ------------------------------------------------------------------ counting

  /** How many of the first `n` satisfy `p`. */
  function Count(s: seq<Snapshot>, p: Snapshot -> bool, n: nat): (c: nat)
    requires n <= |s|
    ensures c <= n
  {
    if n == 0 then 0 else Count(s, p, n - 1) + if p(s[n - 1]) then 1 else 0
  }

  /** `r` is `s` with one more item, at `k`. */
  lemma {:induction false} CountWith(s: seq<Snapshot>, r: seq<Snapshot>, k: nat, p: Snapshot -> bool, n: nat)
    requires k < |r| == |s| + 1 && n <= |r|
    requires (forall i :: 0 <= i < k ==> r[i] == s[i]) && forall i :: k < i < |r| ==> r[i] == s[i - 1]
    ensures Count(r, p, n) == if n <= k then Count(s, p, n) else Count(s, p, n - 1) + if p(r[k]) then 1 else 0
  {
    if n > 0 {
      CountWith(s, r, k, p, n - 1);
    }
  }

  lemma {:induction false} CountInsert(x: Snapshot, s: seq<Snapshot>, p: Snapshot -> bool)
    ensures Count(Insert(x, s), p, |Insert(x, s)|) == Count(s, p, |s|) + if p(x) then 1 else 0
  {
    CountWith(s, Insert(x, s), Place(x, s, 0), p, |s| + 1);
  }

  /** Sorting keeps every count. */
  lemma {:induction false} CountSort(items: seq<Snapshot>, p: Snapshot -> bool, n: nat)
    requires n <= |items|
    ensures Count(Sort(items, n), p, n) == Count(items, p, n)
  {
    if n > 0 {
      CountSort(items, p, n - 1);
      CountInsert(items[n - 1], Sort(items, n - 1), p);
    }
  }

  lemma {:induction false} CountSome(s: seq<Snapshot>, p: Snapshot -> bool, n: nat)
    requires n <= |s|
    ensures Count(s, p, n) == 0 <==> forall k :: 0 <= k < n ==> !p(s[k])
    ensures Count(s, p, n) == n <==> forall k :: 0 <= k < n ==> p(s[k])
  {
    if n > 0 {
      CountSome(s, p, n - 1);
    }
  }

  lemma InsertSame(z: Snapshot, s: seq<Snapshot>, x: Snapshot)
    ensures x in Insert(z, s) <==> x == z || x in s
  {
    var p := Place(z, s, 0);
    assert s == s[..p] + s[p..];
  }

  /** Sorting keeps the items. */
  lemma {:induction false} SortSame(items: seq<Snapshot>, x: Snapshot, n: nat)
    requires n <= |items|
    ensures x in Sort(items, n) <==> exists k :: 0 <= k < n && items[k] == x
  {
    if n > 0 {
      SortSame(items, x, n - 1);
      InsertSame(items[n - 1], Sort(items, n - 1), x);
    }
  }

  // ------------------------------------------------------------------ retained

  /** No published release of the item's channel is as new. */
  predicate Newer(x: Snapshot, published: seq<Tagged>) {
    x.Os? && forall i :: 0 <= i < |published| && published[i].beta.Some? == x.tag.beta.Some? ==>
        TagOrder(x.tag, published[i]) > 0
  }

  /** How many items of a group are kept. */
  function Keep(g: Group, list: seq<Snapshot>, published: seq<Tagged>): (k: nat)
    ensures k >= 1
  {
    match g
    case AddonGroup(_) => 3
    case OsGroup(beta, active) =>
      if active then (if beta then 1 else 3)
      else
        var pending := Count(list, x => Newer(x, published), |list|);
        if pending > 1 then pending else 1
  }

  function Take(s: seq<Snapshot>, k: nat): seq<Snapshot> {
    if k < |s| then s[..k] else s
  }

  function Members(items: seq<Snapshot>, g: Group, published: seq<Tagged>): seq<Snapshot> {
    Pick(items, g, published, |items|)
  }

  /** What is kept of a group. */
  function Kept(items: seq<Snapshot>, g: Group, published: seq<Tagged>): seq<Snapshot> {
    var list := Members(items, g, published);
    Take(Sort(list, |list|), Keep(g, list, published))
  }

  /** What is kept of each group. */
  function Parts(keys: seq<Group>, items: seq<Snapshot>, published: seq<Tagged>): (p: seq<seq<Snapshot>>)
    ensures |p| == |keys|
  {
    seq(|keys|, i requires 0 <= i < |keys| => Kept(items, keys[i], published))
  }

  /** The first `n` parts, one after the other. */
  function Flatten(parts: seq<seq<Snapshot>>, n: nat): seq<Snapshot>
    requires n <= |parts|
  {
    if n == 0 then [] else Flatten(parts, n - 1) + parts[n - 1]
  }

  /** retained. */
  function Retained(items: seq<Snapshot>, published: seq<Tagged>): seq<Snapshot> {
    var parts := Parts(Keys(items, published, |items|), items, published);
    Flatten(parts, |parts|)
  }

  // --------------------------------------------------------- what retained keeps

  lemma {:induction false} PickMeans(items: seq<Snapshot>, g: Group, published: seq<Tagged>, n: nat, x: Snapshot)
    requires n <= |items|
    ensures x in Pick(items, g, published, n) <==>
        (GroupOf(x, published) == g && exists k :: 0 <= k < n && items[k] == x)
  {
    if n > 0 {
      PickMeans(items, g, published, n - 1, x);
    }
  }

  lemma {:induction false} KeysMean(items: seq<Snapshot>, published: seq<Tagged>, n: nat, g: Group)
    requires n <= |items|
    ensures g in Keys(items, published, n) <==> exists k :: 0 <= k < n && GroupOf(items[k], published) == g
  {
    if n > 0 {
      KeysMean(items, published, n - 1, g);
    }
  }

  predicate Different(keys: seq<Group>) {
    forall i, j :: 0 <= i < j < |keys| ==> keys[i] != keys[j]
  }

  lemma {:induction false} KeysDiffer(items: seq<Snapshot>, published: seq<Tagged>, n: nat)
    requires n <= |items|
    ensures Different(Keys(items, published, n))
  {
    if n > 0 {
      KeysDiffer(items, published, n - 1);
    }
  }

  lemma KeptOf(items: seq<Snapshot>, g: Group, published: seq<Tagged>, x: Snapshot)
    requires x in Kept(items, g, published)
    ensures GroupOf(x, published) == g && x in items
  {
    var list := Members(items, g, published);
    SortSame(list, x, |list|);
    PickMeans(items, g, published, |items|, x);
  }

  lemma {:induction false} FlatHas(parts: seq<seq<Snapshot>>, n: nat, k: nat, x: Snapshot)
    requires k < n <= |parts| && x in parts[k]
    ensures x in Flatten(parts, n)
    decreases n
  {
    if k < n - 1 {
      FlatHas(parts, n - 1, k, x);
    }
  }

  lemma {:induction false} FlatFrom(parts: seq<seq<Snapshot>>, n: nat, x: Snapshot) returns (k: nat)
    requires n <= |parts| && x in Flatten(parts, n)
    ensures k < n && x in parts[k]
  {
    if x in parts[n - 1] {
      k := n - 1;
    } else {
      k := FlatFrom(parts, n - 1, x);
    }
  }

  /** An item is retained exactly when it is among what is kept of its group. */
  lemma RetainedMeans(items: seq<Snapshot>, published: seq<Tagged>, x: Snapshot)
    ensures x in Retained(items, published) <==> x in Kept(items, GroupOf(x, published), published)
  {
    var keys := Keys(items, published, |items|);
    var parts := Parts(keys, items, published);
    var g := GroupOf(x, published);
    if x in Kept(items, g, published) {
      KeptOf(items, g, published, x);
      KeysMean(items, published, |items|, g);
      var i :| 0 <= i < |items| && items[i] == x;
      var k :| 0 <= k < |keys| && keys[k] == g;
      FlatHas(parts, |parts|, k, x);
    } else if x in Retained(items, published) {
      var k := FlatFrom(parts, |parts|, x);
      KeptOf(items, keys[k], published, x);
    }
  }

  // ------------------------------------------------------- positions by count

  /** In a sorted list, what holds of newer items once it holds of older ones
      holds of a prefix, whose length is its count. */
  lemma {:induction false} UpwardPrefix(s: seq<Snapshot>, p: Snapshot -> bool, n: nat)
    requires n <= |s| && forall i, j :: 0 <= i < j < |s| && p(s[j]) ==> p(s[i])
    ensures forall i :: 0 <= i < n ==> (p(s[i]) <==> i < Count(s, p, n))
  {
    if n > 0 {
      UpwardPrefix(s, p, n - 1);
    }
  }

  lemma NewerUp(a: Snapshot, b: Snapshot, published: seq<Tagged>)
    requires a.Os? && b.Os? && a.tag.beta.Some? == b.tag.beta.Some? && Cmp(a, b) >= 0 && Newer(b, published)
    ensures Newer(a, published)
  {
    forall i | 0 <= i < |published| && published[i].beta.Some? == a.tag.beta.Some?
      ensures TagOrder(a.tag, published[i]) > 0 {
      CmpDown(a, b, Os(published[i]));
    }
  }

  function Sorted(items: seq<Snapshot>, g: Group, published: seq<Tagged>): seq<Snapshot> {
    Sort(Members(items, g, published), |Members(items, g, published)|)
  }

  lemma SortedMeans(items: seq<Snapshot>, g: Group, published: seq<Tagged>, x: Snapshot)
    ensures x in Sorted(items, g, published) <==> x in items && GroupOf(x, published) == g
  {
    var list := Members(items, g, published);
    SortSame(list, x, |list|);
    PickMeans(items, g, published, |items|, x);
  }

  /** The pending items of a channel that are newer than its published head are
      the first ones. */
  lemma NewerFirst(items: seq<Snapshot>, beta: bool, published: seq<Tagged>)
    ensures var s := Sorted(items, OsGroup(beta, false), published);
      var c := Count(Members(items, OsGroup(beta, false), published), x => Newer(x, published), |s|);
      forall i :: 0 <= i < |s| ==> (Newer(s[i], published) <==> i < c)
  {
    var g := OsGroup(beta, false);
    var list, s := Members(items, g, published), Sorted(items, g, published);
    var p := (x: Snapshot) => Newer(x, published);
    SortDescending(list, |list|);
    forall i, j | 0 <= i < j < |s| && p(s[j]) ensures p(s[i]) {
      SortedMeans(items, g, published, s[i]);
      SortedMeans(items, g, published, s[j]);
      NewerUp(s[i], s[j], published);
    }
    UpwardPrefix(s, p, |s|);
    CountSort(list, p, |list|);
  }

  /** A pending OS snapshot newer than its channel's published head is kept. */
  lemma PendingKept(items: seq<Snapshot>, published: seq<Tagged>, x: Snapshot)
    requires x in items && x.Os? && x.tag !in published && Newer(x, published)
    ensures x in Retained(items, published)
  {
    var g := GroupOf(x, published);
    SortedMeans(items, g, published, x);
    NewerFirst(items, x.tag.beta.Some?, published);
    RetainedMeans(items, published, x);
  }

  /** `x` is above every other published release of its channel. */
  predicate Leads(x: Snapshot, published: seq<Tagged>) {
    x.Os? && forall i :: 0 <= i < |published| && published[i].beta.Some? == x.tag.beta.Some? ==>
      published[i] == x.tag || TagOrder(x.tag, published[i]) > 0
  }

  /** The published head of a channel is kept. */
  lemma HeadKept(items: seq<Snapshot>, published: seq<Tagged>, x: Snapshot)
    requires x in items && x.Os? && x.tag in published && Leads(x, published)
    ensures x in Retained(items, published)
  {
    var g := GroupOf(x, published);
    var list, s := Members(items, g, published), Sorted(items, g, published);
    SortedMeans(items, g, published, x);
    SortDescending(list, |list|);
    var i :| 0 <= i < |s| && s[i] == x;
    if i > 0 {
      SortedMeans(items, g, published, s[0]);
      CmpOrder(s[0], x, x);
    }
    RetainedMeans(items, published, x);
  }

  lemma LeadingKept(items: seq<Snapshot>, published: seq<Tagged>, x: Snapshot)
    requires x in items && Leads(x, published)
    ensures x in Retained(items, published)
  {
    if x.tag in published {
      HeadKept(items, published, x);
    } else {
      PendingKept(items, published, x);
    }
  }

  /** How many of its group are newer than `x`, and how many at least as new. */
  function AboveCount(items: seq<Snapshot>, published: seq<Tagged>, x: Snapshot): nat {
    var list := Members(items, GroupOf(x, published), published);
    Count(list, y => Cmp(y, x) > 0, |list|)
  }

  function AtLeastCount(items: seq<Snapshot>, published: seq<Tagged>, x: Snapshot): nat {
    var list := Members(items, GroupOf(x, published), published);
    Count(list, y => Cmp(y, x) >= 0, |list|)
  }

  function KeepOf(items: seq<Snapshot>, published: seq<Tagged>, x: Snapshot): nat {
    Keep(GroupOf(x, published), Members(items, GroupOf(x, published), published), published)
  }

  /** The rank decides: an item with as many newer ones in its group as are kept
      is dropped, and one that is among the newest so many stays. Without equal
      versions these are all items. */
  lemma RankDecides(items: seq<Snapshot>, published: seq<Tagged>, x: Snapshot)
    requires x in items
    ensures AboveCount(items, published, x) >= KeepOf(items, published, x) ==> x !in Retained(items, published)
    ensures AtLeastCount(items, published, x) <= KeepOf(items, published, x) ==> x in Retained(items, published)
  {
    var g := GroupOf(x, published);
    var list, s := Members(items, g, published), Sorted(items, g, published);
    var above, atLeast := (y: Snapshot) => Cmp(y, x) > 0, (y: Snapshot) => Cmp(y, x) >= 0;
    SortDescending(list, |list|);
    forall i, j | 0 <= i < j < |s| ensures (above(s[j]) ==> above(s[i])) && (atLeast(s[j]) ==> atLeast(s[i])) {
      if atLeast(s[j]) {
        CmpDown(s[i], s[j], x);
      }
    }
    UpwardPrefix(s, above, |s|);
    UpwardPrefix(s, atLeast, |s|);
    CountSort(list, above, |list|);
    CountSort(list, atLeast, |list|);
    CmpOrder(x, x, x);
    SortedMeans(items, g, published, x);
    RetainedMeans(items, published, x);
  }

  /** `k` is the first place of `x`. */
  predicate FirstAt(s: seq<Snapshot>, k: int, x: Snapshot) {
    0 <= k < |s| && s[k] == x && forall j :: 0 <= j < k ==> s[j] != x
  }

  /** The first place of `x` among the first `n`, or -1. */
  function Where(s: seq<Snapshot>, x: Snapshot, n: nat): (k: int)
    requires n <= |s|
    ensures -1 <= k < n && (k >= 0 ==> FirstAt(s, k, x))
    ensures k < 0 ==> forall j :: 0 <= j < n ==> s[j] != x
  {
    if n == 0 then -1
    else
      var k := Where(s, x, n - 1);
      if k < 0 && s[n - 1] == x then n - 1 else k
  }

  /** Item `j` comes before item `i` when newest come first: it is newer, or as
      new and earlier in the list. */
  predicate Ahead(s: seq<Snapshot>, j: int, i: int)
    requires 0 <= j < |s| && 0 <= i < |s|
  {
    if j < i then Cmp(s[j], s[i]) >= 0 else Cmp(s[j], s[i]) > 0 && j != i
  }

  /** How many of the first `n` items are ahead of item `i`. */
  function Rank(s: seq<Snapshot>, i: nat, n: nat): (r: nat)
    requires i < |s| && n <= |s|
    ensures r <= n
  {
    if n == 0 then 0 else Rank(s, i, n - 1) + if Ahead(s, n - 1, i) then 1 else 0
  }

  lemma {:induction false} RankBefore(s: seq<Snapshot>, i: nat, n: nat)
    requires n <= i < |s|
    ensures Rank(s, i, n) == Count(s, y => Cmp(y, s[i]) >= 0, n)
  {
    if n > 0 {
      RankBefore(s, i, n - 1);
    }
  }

  lemma {:induction false} RankSome(s: seq<Snapshot>, i: nat, n: nat)
    requires i < |s| && n <= |s|
    ensures Rank(s, i, n) > 0 <==> exists j :: 0 <= j < n && Ahead(s, j, i)
  {
    if n > 0 {
      RankSome(s, i, n - 1);
    }
  }

  /** Where a new item goes: behind all that are at least as new. */
  lemma {:induction false} PlaceIsCount(x: Snapshot, s: seq<Snapshot>)
    requires Descending(s)
    ensures Place(x, s, 0) == Count(s, y => Cmp(y, x) >= 0, |s|)
  {
    var p := (y: Snapshot) => Cmp(y, x) >= 0;
    forall i, j | 0 <= i < j < |s| && p(s[j]) ensures p(s[i]) {
      CmpDown(s[i], s[j], x);
    }
    UpwardPrefix(s, p, |s|);
    var at := Place(x, s, 0);
    forall k | 0 <= k < |s| ensures p(s[k]) <==> Cmp(x, s[k]) <= 0 {
      CmpOrder(x, s[k], x);
    }
    assert at < |s| ==> !p(s[at]);
    assert at > 0 ==> p(s[at - 1]);
  }

  /** Inserting `z` moves an earlier `x` back exactly if `z` is newer. */
  lemma InsertMoves(z: Snapshot, s: seq<Snapshot>, k: nat, x: Snapshot)
    requires Descending(s) && FirstAt(s, k, x)
    ensures FirstAt(Insert(z, s), if Cmp(z, x) > 0 then k + 1 else k, x)
  {
    var p, r := Place(z, s, 0), Insert(z, s);
    CmpOrder(x, x, x);
    if p <= k {
      if p < k {
        CmpOrder(z, s[p], z);
        CmpDown(z, s[p], x);
      }
      assert forall j :: p < j <= k ==> r[j] == s[j - 1];
    }
  }

  lemma {:induction false} InsertNew(x: Snapshot, s: seq<Snapshot>)
    requires x !in s
    ensures FirstAt(Insert(x, s), Place(x, s, 0), x)
  {
  }

  /** The rank among earlier items is where the item is inserted. */
  lemma {:induction false} RankIsCount(s: seq<Snapshot>, i: nat)
    requires i < |s|
    ensures Rank(s, i, i + 1) == Place(s[i], Sort(s, i), 0)
  {
    RankBefore(s, i, i);
    CountSort(s, y => Cmp(y, s[i]) >= 0, i);
    SortDescending(s, i);
    PlaceIsCount(s[i], Sort(s, i));
  }

  /** The rank of an item is its place in the sorted list. */
  lemma {:induction false} RankIsPlace(s: seq<Snapshot>, i: nat, n: nat)
    requires i < n <= |s| && FirstAt(s, i, s[i])
    ensures FirstAt(Sort(s, n), Rank(s, i, n), s[i])
    decreases n
  {
    SortDescending(s, n - 1);
    if i < n - 1 {
      RankIsPlace(s, i, n - 1);
      InsertMoves(s[n - 1], Sort(s, n - 1), Rank(s, i, n - 1), s[i]);
    } else {
      SortSame(s, s[i], i);
      InsertNew(s[i], Sort(s, i));
      RankIsCount(s, i);
    }
  }

  /** How many of its group are ahead of `x`. */
  function RankOf(items: seq<Snapshot>, published: seq<Tagged>, x: Snapshot): nat {
    var list := Members(items, GroupOf(x, published), published);
    var i := Where(list, x, |list|);
    if i < 0 then 0 else Rank(list, i, |list|)
  }

  /** An item is kept exactly if fewer than are kept of its group are ahead. */
  lemma RankExactly(items: seq<Snapshot>, published: seq<Tagged>, x: Snapshot)
    ensures x in Retained(items, published) <==> x in items && RankOf(items, published, x) < KeepOf(items, published, x)
  {
    var g := GroupOf(x, published);
    var list, s := Members(items, g, published), Sorted(items, g, published);
    SortedMeans(items, g, published, x);
    SortSame(list, x, |list|);
    RetainedMeans(items, published, x);
    var i := Where(list, x, |list|);
    if i >= 0 {
      RankIsPlace(list, i, |list|);
      InTake(s, KeepOf(items, published, x), Rank(list, i, |list|), x);
    }
  }

  lemma InTake(s: seq<Snapshot>, n: nat, k: nat, x: Snapshot)
    requires FirstAt(s, k, x)
    ensures x in Take(s, n) <==> k < n
  {
    if k < n {
      assert Take(s, n)[k] == x;
    }
  }

  // --------------------------------------------------------------- idempotence

  /** All items are of the group. */
  predicate AllOf(s: seq<Snapshot>, g: Group, published: seq<Tagged>) {
    forall k :: 0 <= k < |s| ==> GroupOf(s[k], published) == g
  }

  lemma {:induction false} PickSum(a: seq<Snapshot>, b: seq<Snapshot>, g: Group, h: Group, published: seq<Tagged>,
                                   n: nat)
    requires n <= |b| && AllOf(b, h, published)
    ensures Pick(a + b, g, published, |a| + n) == Pick(a, g, published, |a|) + (if g == h then b[..n] else [])
  {
    if n > 0 {
      PickSum(a, b, g, h, published, n - 1);
      assert (a + b)[|a| + n - 1] == b[n - 1];
      assert b[..n] == b[..n - 1] + [b[n - 1]];
    } else {
      PickFront(a, b, g, published, |a|);
    }
  }

  lemma {:induction false} PickFront(a: seq<Snapshot>, b: seq<Snapshot>, g: Group, published: seq<Tagged>, n: nat)
    requires n <= |a|
    ensures Pick(a + b, g, published, n) == Pick(a, g, published, n)
  {
    if n > 0 {
      PickFront(a, b, g, published, n - 1);
    }
  }

  lemma {:induction false} KeysSum(a: seq<Snapshot>, b: seq<Snapshot>, h: Group, published: seq<Tagged>, n: nat)
    requires n <= |b| && AllOf(b, h, published) && h !in Keys(a, published, |a|)
    ensures Keys(a + b, published, |a| + n) == Keys(a, published, |a|) + (if n > 0 then [h] else [])
  {
    if n > 0 {
      KeysSum(a, b, h, published, n - 1);
      assert (a + b)[|a| + n - 1] == b[n - 1];
    } else {
      KeysFront(a, b, published, |a|);
    }
  }

  lemma {:induction false} KeysFront(a: seq<Snapshot>, b: seq<Snapshot>, published: seq<Tagged>, n: nat)
    requires n <= |a|
    ensures Keys(a + b, published, n) == Keys(a, published, n)
  {
    if n > 0 {
      KeysFront(a, b, published, n - 1);
    }
  }

  lemma KeptAllOf(items: seq<Snapshot>, g: Group, published: seq<Tagged>)
    ensures AllOf(Kept(items, g, published), g, published)
  {
    forall k | 0 <= k < |Kept(items, g, published)| ensures GroupOf(Kept(items, g, published)[k], published) == g {
      KeptOf(items, g, published, Kept(items, g, published)[k]);
    }
  }

  lemma MembersSum(a: seq<Snapshot>, b: seq<Snapshot>, g: Group, h: Group, published: seq<Tagged>)
    requires AllOf(b, h, published)
    ensures Members(a + b, g, published) == if g == h then Members(a, g, published) + b else Members(a, g, published)
  {
    PickSum(a, b, g, h, published, |b|);
    assert b[..|b|] == b;
  }

  /** Every part has the items of one group, in the order of the groups. */
  predicate Grouped(parts: seq<seq<Snapshot>>, keys: seq<Group>, published: seq<Tagged>) {
    |parts| == |keys| && Different(keys) && forall k :: 0 <= k < |parts| ==> AllOf(parts[k], keys[k], published)
  }

  /** Picking a group out of the flattened parts gives its part. */
  lemma {:induction false} PickFlat(parts: seq<seq<Snapshot>>, keys: seq<Group>, published: seq<Tagged>, n: nat, k: nat)
    requires Grouped(parts, keys, published) && n <= |parts| && k < |parts|
    ensures Members(Flatten(parts, n), keys[k], published) == if k < n then parts[k] else []
  {
    if n > 0 {
      PickFlat(parts, keys, published, n - 1, k);
      MembersSum(Flatten(parts, n - 1), parts[n - 1], keys[k], keys[n - 1], published);
      assert k != n - 1 ==> keys[k] != keys[n - 1];
    }
  }

  function AllKeys(s: seq<Snapshot>, published: seq<Tagged>): seq<Group> {
    Keys(s, published, |s|)
  }

  lemma AllKeysSum(a: seq<Snapshot>, b: seq<Snapshot>, h: Group, published: seq<Tagged>)
    requires b != [] && AllOf(b, h, published) && h !in AllKeys(a, published)
    ensures AllKeys(a + b, published) == AllKeys(a, published) + [h]
  {
    KeysSum(a, b, h, published, |b|);
  }

  lemma AllKeysStep(keys: seq<Group>, n: nat, a: seq<Snapshot>, b: seq<Snapshot>, published: seq<Tagged>)
    requires 0 < n <= |keys| && Different(keys) && AllKeys(a, published) == keys[..n - 1]
    requires b != [] && AllOf(b, keys[n - 1], published)
    ensures AllKeys(a + b, published) == keys[..n]
  {
    assert keys[n - 1] !in keys[..n - 1];
    AllKeysSum(a, b, keys[n - 1], published);
    assert keys[..n] == keys[..n - 1] + [keys[n - 1]];
  }

  lemma {:induction false} KeysFlat(parts: seq<seq<Snapshot>>, keys: seq<Group>, published: seq<Tagged>, n: nat)
    requires Grouped(parts, keys, published) && n <= |parts| && forall k :: 0 <= k < |parts| ==> parts[k] != []
    ensures AllKeys(Flatten(parts, n), published) == keys[..n]
  {
    if n > 0 {
      KeysFlat(parts, keys, published, n - 1);
      AllKeysStep(keys, n, Flatten(parts, n - 1), parts[n - 1], published);
    }
  }

  lemma TakeDescending(s: seq<Snapshot>, k: nat)
    requires Descending(s)
    ensures Descending(Take(s, k))
  {
  }

  /** What was kept is sorted, and again no more than is kept. */
  lemma KeptFixed(items: seq<Snapshot>, g: Group, published: seq<Tagged>)
    ensures var kept := Kept(items, g, published); Take(Sort(kept, |kept|), Keep(g, kept, published)) == kept
  {
    var list, kept := Members(items, g, published), Kept(items, g, published);
    SortDescending(list, |list|);
    TakeDescending(Sort(list, |list|), Keep(g, list, published));
    SortSorted(kept, |kept|);
    assert kept[..|kept|] == kept;
    if g.OsGroup? && !g.active {
      PendingFixed(items, g.beta, published);
    }
  }

  lemma PendingFixed(items: seq<Snapshot>, beta: bool, published: seq<Tagged>)
    ensures var kept := Kept(items, OsGroup(beta, false), published);
      |kept| <= Keep(OsGroup(beta, false), kept, published)
  {
    var g := OsGroup(beta, false);
    var list, s, kept := Members(items, g, published), Sorted(items, g, published), Kept(items, g, published);
    var p := (x: Snapshot) => Newer(x, published);
    NewerFirst(items, beta, published);
    if |kept| > 1 {
      forall k | 0 <= k < |kept| ensures p(kept[k]) {
        assert kept[k] == s[k];
      }
      CountSome(kept, p, |kept|);
    }
  }

  /** What is kept is not empty for a group that has items. */
  lemma {:induction false} KeptSome(items: seq<Snapshot>, published: seq<Tagged>, k: nat)
    requires k < |Keys(items, published, |items|)|
    ensures Kept(items, Keys(items, published, |items|)[k], published) != []
  {
    var g := Keys(items, published, |items|)[k];
    KeysMean(items, published, |items|, g);
    var i :| 0 <= i < |items| && GroupOf(items[i], published) == g;
    SortedMeans(items, g, published, items[i]);
  }

  lemma {:induction false} PartsGrouped(items: seq<Snapshot>, published: seq<Tagged>)
    ensures var keys := Keys(items, published, |items|);
      var parts := Parts(keys, items, published);
      Grouped(parts, keys, published) && forall k :: 0 <= k < |parts| ==> parts[k] != []
  {
    var keys := Keys(items, published, |items|);
    var parts := Parts(keys, items, published);
    KeysDiffer(items, published, |items|);
    forall k | 0 <= k < |parts| ensures AllOf(parts[k], keys[k], published) && parts[k] != [] {
      KeptAllOf(items, keys[k], published);
      KeptSome(items, published, k);
    }
  }

  /** Retention is idempotent. */
  lemma Idempotent(items: seq<Snapshot>, published: seq<Tagged>)
    ensures Retained(Retained(items, published), published) == Retained(items, published)
  {
    var keys, r := Keys(items, published, |items|), Retained(items, published);
    var parts := Parts(keys, items, published);
    PartsGrouped(items, published);
    KeysFlat(parts, keys, published, |parts|);
    assert keys[..|keys|] == keys;
    forall k | 0 <= k < |keys| ensures Kept(r, keys[k], published) == parts[k] {
      PickFlat(parts, keys, published, |parts|, k);
      KeptFixed(items, keys[k], published);
    }
    assert Parts(keys, r, published) == parts;
  }

  /** How many items of a group there are before and after: three of the stable
      releases and of each add-on, one beta, and of the pending releases of a
      channel those newer than its head, or the newest. */
  lemma RetainedCounts(items: seq<Snapshot>, published: seq<Tagged>, x: Snapshot)
    requires x in items
    ensures var g := GroupOf(x, published);
      var before, after := |Members(items, g, published)|, |Members(Retained(items, published), g, published)|;
      var newer := Count(Members(items, g, published), y => Newer(y, published), before);
      var most := if g.AddonGroup? || g == OsGroup(false, true) then 3 else if g.active || newer == 0 then 1 else newer;
      after == if before < most then before else most
  {
    var keys, g := Keys(items, published, |items|), GroupOf(x, published);
    KeysMean(items, published, |items|, g);
    PartsGrouped(items, published);
    var k :| 0 <= k < |keys| && keys[k] == g;
    PickFlat(Parts(keys, items, published), keys, published, |keys|, k);
  }

  // ------------------------------------------------------------ the computation

  /** The loops of retained: the heads, the groups, the newest of each. */
  method RetainedLoops(items: seq<Snapshot>, published: seq<Tagged>) returns (result: seq<Snapshot>)
    ensures result == Retained(items, published)
  {
    var heads := Heads(published);
    var groups, order := GroupItems(items, published);
    result := [];
    for i := 0 to |order|
      invariant result == Flatten(Parts(order, items, published), i)
    {
      var kept := KeepGroup(items, order[i], groups[order[i]], heads, published);
      result := result + kept;
    }
  }

  /** The newest of one group. */
  method KeepGroup(items: seq<Snapshot>, g: Group, list: seq<Snapshot>, heads: map<bool, Tagged>,
                   published: seq<Tagged>) returns (kept: seq<Snapshot>)
    requires list == Members(items, g, published)
    requires forall beta :: IsHead(published, |published|, beta, if beta in heads then Some(heads[beta]) else None)
    ensures kept == Kept(items, g, published)
  {
    var sorted := Sort(list, |list|);
    var keep := KeepNumber(items, g, list, sorted, heads, published);
    kept := Take(sorted, keep);
  }

  /** The dictionary holds the groups of the first `n` items. */
  ghost predicate Filled(groups: map<Group, seq<Snapshot>>, items: seq<Snapshot>, published: seq<Tagged>, n: nat)
    requires n <= |items|
  {
    forall g :: Pick(items, g, published, n) == if g in groups then groups[g] else []
  }

  lemma FilledStep(groups: map<Group, seq<Snapshot>>, items: seq<Snapshot>, published: seq<Tagged>, n: nat)
    requires n < |items| && Filled(groups, items, published, n)
    ensures var g := GroupOf(items[n], published);
      Filled(groups[g := (if g in groups then groups[g] else []) + [items[n]]], items, published, n + 1)
  {
  }

  /** The loop that fills the dictionary of groups. */
  method GroupItems(items: seq<Snapshot>, published: seq<Tagged>)
    returns (groups: map<Group, seq<Snapshot>>, order: seq<Group>)
    ensures order == Keys(items, published, |items|)
    ensures forall g :: g in order ==> g in groups && groups[g] == Members(items, g, published)
  {
    groups, order := map[], [];
    for i := 0 to |items|
      invariant order == Keys(items, published, i)
      invariant forall g :: g in groups <==> g in order
      invariant Filled(groups, items, published, i)
    {
      var g := GroupOf(items[i], published);
      FilledStep(groups, items, published, i);
      if g !in groups {
        groups := groups[g := []];
        order := order + [g];
      }
      groups := groups[g := groups[g] + [items[i]]];
    }
  }

  /** The highest published version of a channel. */
  predicate IsHead(published: seq<Tagged>, n: nat, beta: bool, h: Option<Tagged>)
    requires n <= |published|
  {
    && (h.None? ==> forall i :: 0 <= i < n ==> published[i].beta.Some? != beta)
    && (h.Some? ==> forall i :: 0 <= i < n && published[i].beta.Some? == beta ==> TagOrder(published[i], h.value) <= 0)
    && (h.Some? ==> exists i :: 0 <= i < n && published[i] == h.value && published[i].beta.Some? == beta)
  }

  method Heads(published: seq<Tagged>) returns (heads: map<bool, Tagged>)
    ensures forall beta :: IsHead(published, |published|, beta, if beta in heads then Some(heads[beta]) else None)
  {
    heads := map[];
    for i := 0 to |published|
      invariant forall beta :: IsHead(published, i, beta, if beta in heads then Some(heads[beta]) else None)
    {
      var t := published[i];
      var beta := t.beta.Some?;
      CmpOrder(Os(t), Os(t), Os(t));
      if beta !in heads {
        heads := heads[beta := t];
      } else if TagOrder(t, heads[beta]) > 0 {
        forall k | 0 <= k < i && published[k].beta.Some? == beta ensures TagOrder(published[k], t) <= 0 {
          CmpDown(Os(t), Os(heads[beta]), Os(heads[beta]));
          CmpOrder(Os(published[k]), Os(heads[beta]), Os(t));
          CmpOrder(Os(t), Os(heads[beta]), Os(t));
        }
        heads := heads[beta := t];
      }
    }
  }

  /** The comparison with the head decides whether an item is newer. */
  lemma NewerByHead(x: Snapshot, published: seq<Tagged>, h: Option<Tagged>)
    requires x.Os? && IsHead(published, |published|, x.tag.beta.Some?, h)
    ensures Newer(x, published) <==> h.None? || TagOrder(x.tag, h.value) > 0
  {
    if h.Some? && TagOrder(x.tag, h.value) > 0 {
      forall i | 0 <= i < |published| && published[i].beta.Some? == x.tag.beta.Some?
        ensures TagOrder(x.tag, published[i]) > 0 {
        CmpOrder(Os(published[i]), Os(h.value), Os(x.tag));
        CmpDown(x, Os(h.value), Os(published[i]));
      }
    }
  }

  /** How many of a sorted group are kept, counted with the channel's head. */
  method KeepNumber(items: seq<Snapshot>, g: Group, list: seq<Snapshot>, sorted: seq<Snapshot>,
                    heads: map<bool, Tagged>, published: seq<Tagged>)
    returns (keep: nat)
    requires list == Members(items, g, published) && sorted == Sort(list, |list|)
    requires forall beta :: IsHead(published, |published|, beta, if beta in heads then Some(heads[beta]) else None)
    ensures keep == Keep(g, list, published)
  {
    match g
    case AddonGroup(_) => keep := 3;
    case OsGroup(beta, active) =>
      if active {
        return if beta then 1 else 3;
      }
      var head := if beta in heads then Some(heads[beta]) else None;
      var p := (x: Snapshot) => Newer(x, published);
      var newer := 0;
      for i := 0 to |sorted|
        invariant newer == Count(sorted, p, i)
      {
        SortedMeans(items, g, published, sorted[i]);
        NewerByHead(sorted[i], published, head);
        if head.None? || TagOrder(sorted[i].tag, head.value) > 0 {
          newer := newer + 1;
        }
      }
      CountSort(list, p, |list|);
      keep := if newer > 1 then newer else 1;
  }

  // ------------------------------------------------------- publication histories

  /** A published release, and whether its source archive is among its assets. */
  datatype Public = Public(tag: Tagged, source: bool)

  function Tags(public: seq<Public>): (t: seq<Tagged>)
    ensures |t| == |public|
  {
    seq(|public|, i requires 0 <= i < |public| => public[i].tag)
  }

  /** The head that render looks for: the first of the highest releases of the
      channel that have a source archive. */
  function SourceHead(public: seq<Public>, beta: bool, n: nat): (h: Option<Tagged>)
    requires n <= |public|
    ensures h.Some? ==> exists i :: 0 <= i < n && public[i].tag == h.value && public[i].source
                                    && h.value.beta.Some? == beta
    ensures h.None? <==> forall i :: 0 <= i < n ==> !(public[i].source && public[i].tag.beta.Some? == beta)
  {
    if n == 0 then None
    else
      var best := SourceHead(public, beta, n - 1);
      if public[n - 1].source && public[n - 1].tag.beta.Some? == beta
          && (best.None? || TagOrder(public[n - 1].tag, best.value) > 0)
      then Some(public[n - 1].tag) else best
  }

  predicate Missing(snapshots: seq<Snapshot>, public: seq<Public>, beta: bool) {
    var h := SourceHead(public, beta, |public|);
    h.Some? && Os(h.value) !in snapshots
  }

  /** render stops: a published head has no staged packages. */
  predicate Stops(snapshots: seq<Snapshot>, public: seq<Public>) {
    Missing(snapshots, public, false) || Missing(snapshots, public, true)
  }

  class Store {
    var snapshots: seq<Snapshot>

    constructor ()
      ensures snapshots == []
    {
      snapshots := [];
    }

    /** add, for a snapshot with the content that its identity had before. */
    method Add(x: Snapshot)
      modifies this
      ensures snapshots == if x in old(snapshots) then old(snapshots) else old(snapshots) + [x]
    {
      if x !in snapshots {
        snapshots := snapshots + [x];
      }
    }

    /** The head check and the pruning of render. */
    method Render(public: seq<Public>) returns (ok: bool)
      modifies this
      ensures ok <==> !Stops(old(snapshots), public)
      ensures snapshots == if ok then Retained(old(snapshots), Tags(public)) else old(snapshots)
    {
      for k := 0 to 2
        invariant k >= 1 ==> !Missing(snapshots, public, false)
        invariant k >= 2 ==> !Missing(snapshots, public, true)
        invariant snapshots == old(snapshots)
      {
        var beta := k == 1;
        var head: Option<Tagged> := None;
        for i := 0 to |public|
          invariant head == SourceHead(public, beta, i)
        {
          if public[i].source && public[i].tag.beta.Some? == beta
              && (head.None? || TagOrder(public[i].tag, head.value) > 0) {
            head := Some(public[i].tag);
          }
        }
        if head.Some? && Os(head.value) !in snapshots {
          assert Missing(snapshots, public, beta);
          return false;
        }
      }
      snapshots := RetainedLoops(snapshots, Tags(public));
      return true;
    }
  }

  datatype State = State(staged: set<Snapshot>, snapshots: seq<Snapshot>, public: seq<Public>)

  datatype Event = Stage(x: Snapshot) | Publish(p: Public) | Render

  function Next(s: State, e: Event): State {
    match e
    case Stage(x) =>
      s.(staged := s.staged + {x}, snapshots := if x in s.snapshots then s.snapshots else s.snapshots + [x])
    case Publish(p) => s.(public := s.public + [p])
    case Render => if Stops(s.snapshots, s.public) then s else s.(snapshots := Retained(s.snapshots, Tags(s.public)))
  }

  /** The state after the first `n` events. */
  function After(events: seq<Event>, n: nat): State
    requires n <= |events|
  {
    if n == 0 then State({}, [], []) else Next(After(events, n - 1), events[n - 1])
  }

  lemma LeadsBefore(x: Snapshot, public: seq<Public>, p: Public)
    requires Leads(x, Tags(public + [p]))
    ensures Leads(x, Tags(public))
  {
    var before, after := Tags(public), Tags(public + [p]);
    assert forall i :: 0 <= i < |before| ==> before[i] == after[i];
  }

  /** Over every history: a staged OS snapshot that is above every other
      published release of its channel, published itself or not, was never
      pruned. */
  lemma {:induction false} NeverPruned(events: seq<Event>, n: nat, x: Snapshot)
    requires n <= |events| && x in After(events, n).staged && Leads(x, Tags(After(events, n).public))
    ensures x in After(events, n).snapshots
  {
    var s, e := After(events, n - 1), events[n - 1];
    match e
    case Stage(y) =>
      if x != y {
        NeverPruned(events, n - 1, x);
      }
    case Publish(p) =>
      LeadsBefore(x, s.public, p);
      NeverPruned(events, n - 1, x);
    case Render =>
      NeverPruned(events, n - 1, x);
      LeadingKept(s.snapshots, Tags(s.public), x);
  }

  /** In particular one that is newer than its channel's published head: when
      it is published and becomes the head, it still has its packages. */
  lemma {:induction false} NewerNeverPruned(events: seq<Event>, n: nat, x: Snapshot, source: bool)
    requires n <= |events| && x in After(events, n).staged && Newer(x, Tags(After(events, n).public))
    ensures x in After(events, n).snapshots
    ensures x in Next(After(events, n), Publish(Public(x.tag, source))).snapshots
  {
    NeverPruned(events, n, x);
  }

  // ------------------------------------------------------------ when render stops

  /** A successful render in this state drops `x`. */
  predicate Drops(items: seq<Snapshot>, published: seq<Tagged>, x: Snapshot) {
    x in items && RankOf(items, published, x) >= KeepOf(items, published, x)
  }

  /** Another item of its group comes before `x`: it is newer, or as new and
      was staged earlier. */
  ghost predicate Overtaken(items: seq<Snapshot>, published: seq<Tagged>, x: Snapshot) {
    var list := Members(items, GroupOf(x, published), published);
    exists i, j :: FirstAt(list, i, x) && 0 <= j < |list| && Ahead(list, j, i)
  }

  /** A pending OS snapshot is dropped exactly if it is not newer than the
      published head and another pending one of its channel comes before it. */
  lemma PendingDropped(items: seq<Snapshot>, published: seq<Tagged>, x: Snapshot)
    requires x in items && x.Os? && x.tag !in published
    ensures Drops(items, published, x) <==> !Newer(x, published) && Overtaken(items, published, x)
  {
    var g := GroupOf(x, published);
    var list, s := Members(items, g, published), Sorted(items, g, published);
    SortedMeans(items, g, published, x);
    SortSame(list, x, |list|);
    var i := Where(list, x, |list|);
    RankIsPlace(list, i, |list|);
    RankSome(list, i, |list|);
    NewerFirst(items, x.tag.beta.Some?, published);
    assert Newer(s[Rank(list, i, |list|)], published) <==> Newer(x, published);
    assert forall k :: FirstAt(list, k, x) ==> k == i;
  }

  /** A published OS release is dropped exactly if one other beta, or three other
      stable releases, published and staged, come before it. */
  lemma PublishedDropped(items: seq<Snapshot>, published: seq<Tagged>, x: Snapshot)
    requires x in items && x.Os? && x.tag in published
    ensures Drops(items, published, x) <==> RankOf(items, published, x) >= if x.tag.beta.Some? then 1 else 3
  {
  }

  /** The render at event `k` succeeds and drops `x`. */
  predicate LostAt(events: seq<Event>, k: nat, x: Snapshot)
    requires k < |events|
  {
    var s := After(events, k);
    events[k].Render? && !Stops(s.snapshots, s.public) && Drops(s.snapshots, Tags(s.public), x)
  }

  /** Some render dropped `x`, and it was not staged again. */
  predicate Lost(events: seq<Event>, n: nat, x: Snapshot)
    requires n <= |events|
  {
    n > 0 && events[n - 1] != Stage(x) && (LostAt(events, n - 1, x) || Lost(events, n - 1, x))
  }

  /** What is in the store was staged and not lost. */
  lemma {:induction false} StagedNotLost(events: seq<Event>, n: nat, x: Snapshot)
    requires n <= |events|
    ensures x in After(events, n).snapshots <==> x in After(events, n).staged && !Lost(events, n, x)
  {
    if n > 0 {
      StagedNotLost(events, n - 1, x);
      var s := After(events, n - 1);
      if events[n - 1].Render? {
        RankExactly(s.snapshots, Tags(s.public), x);
      }
    }
  }

  /** The head of a channel that has a source archive was not staged, or was
      lost. */
  predicate HeadLost(events: seq<Event>, n: nat, beta: bool)
    requires n <= |events|
  {
    var s := After(events, n);
    var h := SourceHead(s.public, beta, |s.public|);
    h.Some? && (Os(h.value) !in s.staged || Lost(events, n, Os(h.value)))
  }

  /** Over every history: the next render refuses if and only if the release that
      it takes for the head of a channel was not staged, or an earlier render
      dropped it. */
  lemma {:induction false} StopsExactly(events: seq<Event>, n: nat)
    requires n <= |events|
    ensures var s := After(events, n);
      Stops(s.snapshots, s.public) <==> HeadLost(events, n, false) || HeadLost(events, n, true)
  {
    MissingExactly(events, n, false);
    MissingExactly(events, n, true);
  }

  lemma {:induction false} MissingExactly(events: seq<Event>, n: nat, beta: bool)
    requires n <= |events|
    ensures var s := After(events, n); Missing(s.snapshots, s.public, beta) <==> HeadLost(events, n, beta)
  {
    var s := After(events, n);
    var h := SourceHead(s.public, beta, |s.public|);
    if h.Some? {
      StagedNotLost(events, n, Os(h.value));
    }
  }

  /** After a successful render and a publication, the next render refuses in a
      channel if and only if
      - the release just published is the head, and it was not in the store, or
        it was pending, not newer than the published head, and overtaken; or
      - an earlier release is the head, and the render dropped it. */
  lemma {:induction false} RefusedAfter(s: State, p: Public, beta: bool)
    requires !Stops(s.snapshots, s.public)
    ensures var t := Next(Next(s, Render), Publish(p));
      var h, tags := SourceHead(t.public, beta, |t.public|), Tags(s.public);
      Missing(t.snapshots, t.public, beta) <==>
        h.Some? && var x := Os(h.value);
        if x.tag !in tags then
          x.tag == p.tag && (x !in s.snapshots || (!Newer(x, tags) && Overtaken(s.snapshots, tags, x)))
        else x !in s.snapshots || RankOf(s.snapshots, tags, x) >= if x.tag.beta.Some? then 1 else 3
  {
    var t := Next(Next(s, Render), Publish(p));
    var h, tags := SourceHead(t.public, beta, |t.public|), Tags(s.public);
    if h.Some? {
      var x := Os(h.value);
      RankExactly(s.snapshots, tags, x);
      if x in s.snapshots && x.tag in tags {
        PublishedDropped(s.snapshots, tags, x);
      } else if x in s.snapshots {
        PendingDropped(s.snapshots, tags, x);
      }
      var i :| 0 <= i < |t.public| && t.public[i].tag == x.tag;
      assert i < |s.public| ==> tags[i] == x.tag;
    }
  }

  /** Ends a refusal: the head is staged again, or a newer release of the channel
      is published with its source archive. */
  predicate Ends(e: Event, h: Tagged) {
    match e
    case Stage(x) => x == Os(h)
    case Publish(p) => p.source && p.tag.beta.Some? == h.beta.Some? && TagOrder(p.tag, h) > 0
    case Render => false
  }

  /** A refusal lasts until such an event. */
  lemma {:induction false} RefusedUntil(events: seq<Event>, n: nat, m: nat, beta: bool)
    requires n <= m <= |events| && Missing(After(events, n).snapshots, After(events, n).public, beta)
    requires var h := SourceHead(After(events, n).public, beta, |After(events, n).public|).value;
      forall j :: n <= j < m ==> !Ends(events[j], h)
    ensures Missing(After(events, m).snapshots, After(events, m).public, beta)
    ensures SourceHead(After(events, m).public, beta, |After(events, m).public|)
         == SourceHead(After(events, n).public, beta, |After(events, n).public|)
    decreases m
  {
    if n < m {
      RefusedUntil(events, n, m - 1, beta);
      RefusedStep(After(events, m - 1), events[m - 1], beta);
    }
  }

  lemma {:induction false} RefusedStep(s: State, e: Event, beta: bool)
    requires Missing(s.snapshots, s.public, beta) && !Ends(e, SourceHead(s.public, beta, |s.public|).value)
    ensures var t := Next(s, e);
      Missing(t.snapshots, t.public, beta)
          && SourceHead(t.public, beta, |t.public|) == SourceHead(s.public, beta, |s.public|)
  {
    match e
    case Stage(x) =>
      assert Next(s, e).public == s.public;
    case Publish(p) => HeadStays(s.public, p, beta);
    case Render =>
      assert Stops(s.snapshots, s.public);
      assert Next(s, e) == s;
  }

  lemma {:induction false} HeadStays(public: seq<Public>, p: Public, beta: bool)
    requires var h := SourceHead(public, beta, |public|);
      h.Some? && !(p.source && p.tag.beta.Some? == beta && TagOrder(p.tag, h.value) > 0)
    ensures SourceHead(public + [p], beta, |public| + 1) == SourceHead(public, beta, |public|)
  {
    HeadPrefix(public, public + [p], beta, |public|);
  }

  /** A newer release with its source archive becomes the head, and its own
      packages decide. */
  lemma NewHeadDecides(s: State, p: Public)
    requires var h := SourceHead(s.public, p.tag.beta.Some?, |s.public|);
      p.source && (h.Some? ==> TagOrder(p.tag, h.value) > 0)
    ensures var t, beta := Next(s, Publish(p)), p.tag.beta.Some?;
      SourceHead(t.public, beta, |t.public|) == Some(p.tag)
          && (Missing(t.snapshots, t.public, beta) <==> Os(p.tag) !in s.snapshots)
  {
    HeadPrefix(s.public, s.public + [p], p.tag.beta.Some?, |s.public|);
  }

  /** If the head of each channel that has a source archive was staged and is
      above every other published release of its channel, render does not
      refuse. */
  lemma {:induction false} NeverRefused(events: seq<Event>, n: nat)
    requires n <= |events|
    requires var s := After(events, n); forall beta :: var h := SourceHead(s.public, beta, |s.public|);
      h.Some? ==> Os(h.value) in s.staged && Leads(Os(h.value), Tags(s.public))
    ensures !Stops(After(events, n).snapshots, After(events, n).public)
  {
    var s := After(events, n);
    forall beta ensures !Missing(s.snapshots, s.public, beta) {
      var h := SourceHead(s.public, beta, |s.public|);
      if h.Some? {
        NeverPruned(events, n, Os(h.value));
      }
    }
  }

  /** A pending OS snapshot that is not newer than the published head is dropped
      as soon as another pending one of its channel is newer than it. */
  lemma OlderPendingDropped(items: seq<Snapshot>, published: seq<Tagged>, x: Snapshot, y: Snapshot)
    requires x in items && y in items && x.Os? && y.Os? && x.tag !in published && y.tag !in published
    requires x.tag.beta.Some? == y.tag.beta.Some? && Cmp(y, x) > 0 && !Newer(x, published)
    ensures x !in Retained(items, published)
  {
    var g := GroupOf(x, published);
    var s := Sorted(items, g, published);
    SortedMeans(items, g, published, x);
    SortedMeans(items, g, published, y);
    SortDescending(Members(items, g, published), |Members(items, g, published)|);
    NewerFirst(items, x.tag.beta.Some?, published);
    RetainedMeans(items, published, x);
    var j :| 0 <= j < |s| && s[j] == y;
    CmpOrder(y, x, x);
    forall i | 0 <= i < |Kept(items, g, published)| ensures Kept(items, g, published)[i] != x {
      assert s[i] == x ==> i > 0;
    }
  }

  /** Of two pending releases the newer one survives. */
  lemma NewerOfTwoKept(x: Tagged, y: Tagged, z: Tagged)
    requires TagOrder(y, x) > 0 && x.beta.Some? == y.beta.Some? && y != z
    ensures Os(y) in Retained([Os(x), Os(y)], [z])
  {
    var items, tags, v := [Os(x), Os(y)], [z], Os(y);
    RankExactly(items, tags, v);
    PendingDropped(items, tags, v);
    var list := Members(items, GroupOf(v, tags), tags);
    forall i, j | FirstAt(list, i, v) && 0 <= j < |list| ensures !Ahead(list, j, i) {
      PickMeans(items, GroupOf(v, tags), tags, |items|, list[j]);
      CmpOrder(Os(x), v, v);
    }
  }

  /** A history in which render refuses: x and the newer y are staged, z at or
      above x is published without a source archive, a render drops x, and x is
      published with its source archive. It no longer refuses when y is published
      with its own. */
  function OlderReleased(x: Tagged, y: Tagged, z: Tagged): seq<Event> {
    [Stage(Os(x)), Stage(Os(y)), Publish(Public(z, false)), Render, Publish(Public(x, true)), Render,
     Publish(Public(y, true))]
  }

  /** The first four events leave y and the publication of z. */
  lemma OlderDropped(x: Tagged, y: Tagged, z: Tagged)
    requires x.beta.Some? == y.beta.Some? == z.beta.Some? && TagOrder(y, x) > 0
    requires TagOrder(z, x) >= 0 && z != x && z != y
    ensures var s := After(OlderReleased(x, y, z), 4);
      s.public == [Public(z, false)] && Os(x) !in s.snapshots && Os(y) in s.snapshots
  {
    var events := OlderReleased(x, y, z);
    CmpOrder(Os(x), Os(y), Os(z));
    CmpOrder(Os(x), Os(z), Os(x));
    assert After(events, 0) == State({}, [], []);
    assert After(events, 1).snapshots == [Os(x)];
    assert After(events, 2).snapshots == [Os(x), Os(y)];
    var s := After(events, 3);
    assert s.snapshots == [Os(x), Os(y)] && s.public == [Public(z, false)];
    assert Tags(s.public) == [z];
    assert forall beta :: SourceHead(s.public, beta, 1).None?;
    assert !Stops(s.snapshots, s.public);
    assert Tags(s.public)[0] == z && !Newer(Os(x), Tags(s.public));
    OlderPendingDropped(s.snapshots, Tags(s.public), Os(x), Os(y));
    NewerOfTwoKept(x, y, z);
  }

  /** Then x is the head that is missing, and stays so. */
  lemma OlderStops(x: Tagged, y: Tagged, z: Tagged)
    requires x.beta.Some? == y.beta.Some? == z.beta.Some? && TagOrder(y, x) > 0
    requires TagOrder(z, x) >= 0 && z != x && z != y
    ensures var events := OlderReleased(x, y, z);
      && Stops(After(events, 5).snapshots, After(events, 5).public) && After(events, 6) == After(events, 5)
      && After(events, 5) == Next(After(events, 4), Publish(Public(x, true)))
      && |After(events, 5).public| == 2 && SourceHead(After(events, 5).public, x.beta.Some?, 2) == Some(x)
  {
    var events := OlderReleased(x, y, z);
    OlderDropped(x, y, z);
    assert SourceHead(After(events, 4).public, x.beta.Some?, 1).None?;
    NewHeadDecides(After(events, 4), Public(x, true));
    assert After(events, 5) == Next(After(events, 4), Publish(Public(x, true)));
    assert After(events, 6) == Next(After(events, 5), Render);
  }

  /** In that history render refuses after x is published, again after it was
      tried, and no longer after y is published. */
  lemma OlderReleaseRefused(x: Tagged, y: Tagged, z: Tagged)
    requires x.beta.Some? == y.beta.Some? == z.beta.Some? && TagOrder(y, x) > 0
    requires TagOrder(z, x) >= 0 && z != x && z != y
    ensures var events := OlderReleased(x, y, z);
      && Stops(After(events, 5).snapshots, After(events, 5).public) && After(events, 6) == After(events, 5)
      && !Stops(After(events, 7).snapshots, After(events, 7).public)
  {
    var events, beta := OlderReleased(x, y, z), x.beta.Some?;
    OlderDropped(x, y, z);
    OlderStops(x, y, z);
    assert After(events, 7) == Next(After(events, 6), Publish(Public(y, true)));
    NewHeadDecides(After(events, 6), Public(y, true));
    var t := After(events, 7);
    assert forall i :: 0 <= i < |t.public| ==> t.public[i].tag.beta.Some? == beta;
  }

  lemma {:induction false} HeadPrefix(a: seq<Public>, b: seq<Public>, beta: bool, n: nat)
    requires n <= |a| <= |b| && a == b[..|a|]
    ensures SourceHead(b, beta, n) == SourceHead(a, beta, n)
  {
    if n > 0 {
      HeadPrefix(a, b, beta, n - 1);
    }
  }
}
