/**
 * The pure part of the clipboard item service: order and timestamp
 * normalisation, the display comparator and the sort built on it, the
 * order computations used when inserting, pinning and unpinning, and the
 * metadata aggregate.
 */
module ClipboardOrder {
  import opened Wrappers
  import opened ClipboardTypes

  /** `Number.MAX_SAFE_INTEGER`, the order given to non-numeric order fields. */
  const MAX_SAFE_INTEGER: int := 9007199254740991

  /** `normalizeOrder`: a number stays, anything else sorts last. */
  function NormalizeOrder(order: NumField): (r: int)
    ensures order.Num? ==> r == order.n
    ensures order.NonNumeric? ==> r == MAX_SAFE_INTEGER
  {
    match order
    case Num(n) => n
    case NonNumeric => MAX_SAFE_INTEGER
  }

  /** `normalizeTimestamp`: a non-numeric timestamp counts as 0. */
  function NormalizeTimestamp(t: NumField): (r: int)
    ensures t.Num? ==> r == t.n
    ensures t.NonNumeric? ==> r == 0
  {
    match t
    case Num(n) => n
    case NonNumeric => 0
  }

  /** The normalised order of a document. */
  function Ord(d: Doc): int {
    NormalizeOrder(d.order)
  }

  /**
   * `compareDocs`: negative when `a` is displayed before `b`, positive when
   * after, zero when the two are tied on every key.
   */
  function CompareDocs(a: Doc, b: Doc): (r: int)
    ensures KeyBefore(a, b) ==> r < 0
    ensures KeyBefore(b, a) ==> r > 0
    ensures KeysTie(a, b) ==> r == 0
  {
    if a.pinned != b.pinned then
      (if a.pinned then -1 else 1)
    else if Ord(a) != Ord(b) then
      Ord(a) - Ord(b)
    else
      var ua, ub := NormalizeTimestamp(a.updatedAt), NormalizeTimestamp(b.updatedAt);
      if ua != ub then
        ub - ua
      else
        NormalizeTimestamp(b.createdAt) - NormalizeTimestamp(a.createdAt)
  }

  /** `a` may be displayed before `b`. */
  predicate DocLeq(a: Doc, b: Doc) {
    CompareDocs(a, b) <= 0
  }

  /**
   * The display order as a lexicographic key comparison: pinned first, then
   * ascending order, then later update first, then later creation first.
   */
  predicate KeyBefore(a: Doc, b: Doc) {
    var ua, ub := NormalizeTimestamp(a.updatedAt), NormalizeTimestamp(b.updatedAt);
    var ca, cb := NormalizeTimestamp(a.createdAt), NormalizeTimestamp(b.createdAt);
    || (a.pinned && !b.pinned)
    || (a.pinned == b.pinned &&
        (|| Ord(a) < Ord(b)
         || (Ord(a) == Ord(b) && (ua > ub || (ua == ub && ca > cb)))))
  }

  /** Two documents tie on every key of the display order. */
  predicate KeysTie(a: Doc, b: Doc) {
    && a.pinned == b.pinned
    && Ord(a) == Ord(b)
    && NormalizeTimestamp(a.updatedAt) == NormalizeTimestamp(b.updatedAt)
    && NormalizeTimestamp(a.createdAt) == NormalizeTimestamp(b.createdAt)
  }

  /** The sign of the comparator is exactly the lexicographic key order. */
  lemma CompareDocsIsKeyOrder(a: Doc, b: Doc)
    ensures CompareDocs(a, b) < 0 <==> KeyBefore(a, b)
    ensures CompareDocs(a, b) > 0 <==> KeyBefore(b, a)
    ensures CompareDocs(a, b) == 0 <==> KeysTie(a, b)
  {
  }

  /** Every pinned document is displayed before every unpinned one. */
  lemma PinnedBeforeUnpinned(a: Doc, b: Doc)
    requires a.pinned && !b.pinned
    ensures CompareDocs(a, b) < 0 && CompareDocs(b, a) > 0
  {
  }

  /**
   * Within a partition a non-numeric order sorts after every numeric order
   * below `MAX_SAFE_INTEGER`.
   */
  lemma NonNumericOrderSortsLast(a: Doc, b: Doc)
    requires a.pinned == b.pinned
    requires a.order.NonNumeric? && b.order.Num? && b.order.n < MAX_SAFE_INTEGER
    ensures CompareDocs(b, a) < 0
  {
  }

  /** `DocLeq` is a total preorder: total and transitive. */
  lemma DocLeqTotal(a: Doc, b: Doc)
    ensures DocLeq(a, b) || DocLeq(b, a)
  {
  }

  lemma DocLeqTransitive(a: Doc, b: Doc, c: Doc)
    requires DocLeq(a, b) && DocLeq(b, c)
    ensures DocLeq(a, c)
  {
    CompareDocsIsKeyOrder(a, b);
    CompareDocsIsKeyOrder(b, c);
    CompareDocsIsKeyOrder(a, c);
  }

  /** A sequence of documents in display order. */
  predicate Sorted(s: seq<Doc>) {
    forall i, j | 0 <= i < j < |s| :: DocLeq(s[i], s[j])
  }

  /** Inserts `x` into `s` before the first element it may precede. */
  function Insert(x: Doc, s: seq<Doc>): (r: seq<Doc>)
    ensures multiset(r) == multiset(s) + multiset{x}
    ensures |r| == |s| + 1
  {
    if s == [] then [x]
    else if DocLeq(x, s[0]) then [x] + s
    else
      assert s == [s[0]] + s[1..];
      [s[0]] + Insert(x, s[1..])
  }

  /** An element that may precede the head of a sorted sequence may precede all of it. */
  lemma LeqHeadLeqAll(x: Doc, s: seq<Doc>)
    requires Sorted(s) && |s| > 0 && DocLeq(x, s[0])
    ensures forall j | 0 <= j < |s| :: DocLeq(x, s[j])
  {
    forall j | 0 <= j < |s| ensures DocLeq(x, s[j]) {
      if j > 0 { DocLeqTransitive(x, s[0], s[j]); }
    }
  }

  /** Prepending an element that may precede every element keeps a sequence sorted. */
  lemma PrependSorted(x: Doc, s: seq<Doc>)
    requires Sorted(s)
    requires forall j | 0 <= j < |s| :: DocLeq(x, s[j])
    ensures Sorted([x] + s)
  {
    assert forall j | 1 <= j < |s| + 1 :: ([x] + s)[j] == s[j - 1];
  }

  /** Inserting into a sorted sequence keeps it sorted. */
  lemma {:induction false} InsertSorted(x: Doc, s: seq<Doc>)
    requires Sorted(s)
    ensures Sorted(Insert(x, s))
  {
    if s == [] {
    } else if DocLeq(x, s[0]) {
      LeqHeadLeqAll(x, s);
      PrependSorted(x, s);
    } else {
      var rest := Insert(x, s[1..]);
      assert Sorted(s[1..]) by {
        assert forall i | 0 <= i < |s| - 1 :: s[1..][i] == s[i + 1];
      }
      InsertSorted(x, s[1..]);
      DocLeqTotal(x, s[0]);
      forall j | 0 <= j < |rest| ensures DocLeq(s[0], rest[j]) {
        assert rest[j] in multiset(rest);
        if rest[j] != x {
          assert rest[j] in multiset(s[1..]);
          var k :| 0 <= k < |s[1..]| && s[1..][k] == rest[j];
          assert DocLeq(s[0], s[k + 1]);
        }
      }
      PrependSorted(s[0], rest);
    }
  }

  /**
   * `docs.slice().sort(compareDocs)`: a stable insertion sort. Each element
   * goes before the equal elements that followed it, so ties keep their
   * relative order.
   */
  function SortDocs(s: seq<Doc>): (r: seq<Doc>)
    ensures multiset(r) == multiset(s)
    ensures |r| == |s|
  {
    if s == [] then []
    else
      assert s == [s[0]] + s[1..];
      Insert(s[0], SortDocs(s[1..]))
  }

  /** The sort's output is in display order. */
  lemma {:induction false} SortDocsSorted(s: seq<Doc>)
    ensures Sorted(SortDocs(s))
  {
    if s != [] {
      SortDocsSorted(s[1..]);
      InsertSorted(s[0], SortDocs(s[1..]));
    }
  }

  /** In sorted output every pinned document comes before every unpinned one. */
  lemma SortedPinnedFirst(s: seq<Doc>, i: int, j: int)
    requires Sorted(s) && 0 <= i < |s| && 0 <= j < |s|
    requires s[i].pinned && !s[j].pinned
    ensures i < j
  {
    if j < i {
      assert DocLeq(s[j], s[i]);
      PinnedBeforeUnpinned(s[i], s[j]);
    }
  }

  // ---- minimum and maximum of non-empty integer sequences ----

  function Min(xs: seq<int>): (m: int)
    requires |xs| > 0
    ensures m in xs
    ensures forall i | 0 <= i < |xs| :: m <= xs[i]
  {
    if |xs| == 1 then xs[0]
    else
      var m' := Min(xs[1..]);
      assert m' in xs;
      if xs[0] <= m' then xs[0] else m'
  }

  function Max(xs: seq<int>): (m: int)
    requires |xs| > 0
    ensures m in xs
    ensures forall i | 0 <= i < |xs| :: xs[i] <= m
  {
    if |xs| == 1 then xs[0]
    else
      var m' := Max(xs[1..]);
      assert m' in xs;
      if m' <= xs[0] then xs[0] else m'
  }

  /**
   * The normalised orders of the documents that satisfy `keep`, in the
   * same order, leaving out `MAX_SAFE_INTEGER` when `dropMax` is set.
   * Every normalised order is finite in this model, so the source's
   * `Number.isFinite` filter keeps everything.
   */
  function SelectedOrders(s: seq<Doc>, keep: Doc -> bool, dropMax: bool): (r: seq<int>)
    ensures forall x :: x in r <==>
      exists i | 0 <= i < |s| :: keep(s[i]) && Ord(s[i]) == x && (dropMax ==> x != MAX_SAFE_INTEGER)
  {
    if s == [] then []
    else
      var o := Ord(s[0]);
      var rest := SelectedOrders(s[1..], keep, dropMax);
      var head := if keep(s[0]) && (dropMax ==> o != MAX_SAFE_INTEGER) then [o] else [];
      assert forall x :: x in head + rest <==> x in head || x in rest;
      assert forall i | 1 <= i < |s| :: s[i] == s[1..][i - 1];
      assert forall i | 0 <= i < |s| - 1 :: s[1..][i] == s[i + 1];
      head + rest
  }

  /** Every document takes part in the insertion minimum. */
  predicate AnyDoc(d: Doc) { true }

  /** Documents of the pinned partition. */
  predicate IsPinned(d: Doc) { d.pinned }

  /**
   * `getMinOrder`: the least order other than `MAX_SAFE_INTEGER` over all
   * documents, pinned and unpinned, or 0 when there is none.
   */
  function GetMinOrder(s: seq<Doc>): (r: int)
    ensures forall i | 0 <= i < |s| && Ord(s[i]) != MAX_SAFE_INTEGER :: r <= Ord(s[i])
    ensures || (exists i | 0 <= i < |s| :: Ord(s[i]) != MAX_SAFE_INTEGER && r == Ord(s[i]))
            || (r == 0 && forall i | 0 <= i < |s| :: Ord(s[i]) == MAX_SAFE_INTEGER)
  {
    var orders := SelectedOrders(s, AnyDoc, true);
    assert forall i | 0 <= i < |s| && Ord(s[i]) != MAX_SAFE_INTEGER :: Ord(s[i]) in orders;
    if |orders| == 0 then 0 else Min(orders)
  }

  /**
   * The order a pinned item receives: one below the least order in the
   * pinned partition (which may include the item itself), or -1 when
   * nothing is pinned. `MAX_SAFE_INTEGER` is not filtered out here.
   */
  function PinTargetOrder(s: seq<Doc>): (r: int)
    ensures forall i | 0 <= i < |s| && s[i].pinned :: r < Ord(s[i])
    ensures || (exists i | 0 <= i < |s| :: s[i].pinned && r == Ord(s[i]) - 1)
            || (r == -1 && forall i | 0 <= i < |s| :: !s[i].pinned)
  {
    var orders := SelectedOrders(s, IsPinned, false);
    assert forall i | 0 <= i < |s| && s[i].pinned :: Ord(s[i]) in orders;
    (if |orders| > 0 then Min(orders) else 0) - 1
  }

  /**
   * The order an unpinned item receives: one above the greatest order
   * other than `MAX_SAFE_INTEGER` among the unpinned documents and the item
   * itself, or 1 when there is none.
   */
  function UnpinTargetOrder(s: seq<Doc>, id: string): (r: int)
    ensures forall i | 0 <= i < |s| && (!s[i].pinned || s[i].id == id) && Ord(s[i]) != MAX_SAFE_INTEGER ::
      Ord(s[i]) < r
    ensures || (exists i | 0 <= i < |s| ::
                 (!s[i].pinned || s[i].id == id) && Ord(s[i]) != MAX_SAFE_INTEGER && r == Ord(s[i]) + 1)
            || (r == 1 && forall i | 0 <= i < |s| && (!s[i].pinned || s[i].id == id) ::
                 Ord(s[i]) == MAX_SAFE_INTEGER)
  {
    var orders := SelectedOrders(s, (d: Doc) => !d.pinned || d.id == id, true);
    assert forall i | 0 <= i < |s| && (!s[i].pinned || s[i].id == id) && Ord(s[i]) != MAX_SAFE_INTEGER ::
      Ord(s[i]) in orders;
    (if |orders| > 0 then Max(orders) else 0) + 1
  }

  // ---- metadata ----

  /** `ClipboardMetadata` without the byte estimate. */
  datatype Metadata = Metadata(
    total: nat,
    textCount: nat,
    imageCount: nat,
    latestCreatedAt: Option<int>,
    latestUpdatedAt: Option<int>)

  /** A timestamp kept by `.filter(Boolean)`: a number other than 0. */
  predicate Truthy(t: NumField) {
    t.Num? && t.n != 0
  }

  function CountText(s: seq<Doc>): (n: nat)
    ensures n <= |s|
    ensures n == 0 <==> forall i | 0 <= i < |s| :: !s[i].payload.Text?
  {
    if s == [] then 0
    else
      assert forall i | 1 <= i < |s| :: s[i] == s[1..][i - 1];
      (if s[0].payload.Text? then 1 else 0) + CountText(s[1..])
  }

  /** The text count of a sequence is that of all but its last element, plus the last. */
  lemma {:induction false} CountTextLast(s: seq<Doc>)
    requires |s| > 0
    ensures CountText(s) == CountText(s[..|s| - 1]) + (if s[|s| - 1].payload.Text? then 1 else 0)
  {
    if |s| > 1 {
      CountTextLast(s[1..]);
      assert s[1..][..|s| - 2] == s[..|s| - 1][1..];
      assert s[..|s| - 1][0] == s[0];
      assert s[1..][|s| - 2] == s[|s| - 1];
    }
  }

  function CountImage(s: seq<Doc>): (n: nat)
    ensures n == |s| - CountText(s)
  {
    if s == [] then 0 else (if s[0].payload.Image? then 1 else 0) + CountImage(s[1..])
  }

  /** The truthy timestamps selected by `field`, in document order. */
  function TruthyStamps(s: seq<Doc>, field: Doc -> NumField): (r: seq<int>)
    ensures forall x :: x in r <==> exists i | 0 <= i < |s| :: Truthy(field(s[i])) && field(s[i]).n == x
  {
    if s == [] then []
    else
      var rest := TruthyStamps(s[1..], field);
      var head := if Truthy(field(s[0])) then [field(s[0]).n] else [];
      assert forall x :: x in head + rest <==> x in head || x in rest;
      assert forall i | 1 <= i < |s| :: s[i] == s[1..][i - 1];
      assert forall i | 0 <= i < |s| - 1 :: s[1..][i] == s[i + 1];
      head + rest
  }

  /** The greatest truthy timestamp, or `None` when there is none. */
  function Latest(s: seq<Doc>, field: Doc -> NumField): (r: Option<int>)
    ensures r.None? <==> forall i | 0 <= i < |s| :: !Truthy(field(s[i]))
    ensures r.Some? ==> forall i | 0 <= i < |s| && Truthy(field(s[i])) :: field(s[i]).n <= r.value
    ensures r.Some? ==> exists i | 0 <= i < |s| :: Truthy(field(s[i])) && field(s[i]).n == r.value
  {
    var stamps := TruthyStamps(s, field);
    assert forall i | 0 <= i < |s| && Truthy(field(s[i])) :: field(s[i]).n in stamps;
    if |stamps| == 0 then None else Some(Max(stamps))
  }

  function CreatedAtOf(d: Doc): NumField { d.createdAt }
  function UpdatedAtOf(d: Doc): NumField { d.updatedAt }

  /**
   * The counting part of `getMetadata`: one entry per document, every
   * document is text or image, and the latest timestamps are the maxima of
   * the non-zero numeric ones.
   */
  function ComputeMetadata(s: seq<Doc>): (md: Metadata)
    ensures md.total == |s|
    ensures md.textCount + md.imageCount == md.total
    ensures md.latestCreatedAt == Latest(s, CreatedAtOf)
    ensures md.latestUpdatedAt == Latest(s, UpdatedAtOf)
  {
    Metadata(|s|, CountText(s), CountImage(s), Latest(s, CreatedAtOf), Latest(s, UpdatedAtOf))
  }
}
