/**
 * The table's pagination in the main component (src/App.tsx): page `p` shows
 * `filteredPNodes.slice((p - 1) * per, (p - 1) * per + per)`, and the control
 * offers `Math.ceil(filteredPNodes.length / per)` pages.
 */
module Pagination {
  import opened Common
  import opened Node

  /** A `slice` bound: a negative index counts from the end; both ends are clamped to `[0, len]`. */
  function SliceIndex(i: int, len: nat): (r: nat)
    ensures r <= len
    ensures 0 <= i <= len ==> r == i
    ensures i > len ==> r == len
    ensures i < 0 ==> r == if len + i < 0 then 0 else len + i
  {
    if i < 0 then (if len + i < 0 then 0 else len + i)
    else if i > len then len
    else i
  }

  /** `s.slice(start, end)`: from the first bound up to the second, empty when they cross. */
  function Slice<T>(s: seq<T>, start: int, end: int): (r: seq<T>)
    ensures |r| <= |s|
    ensures 0 <= start <= end <= |s| ==> r == s[start..end]
  {
    var from := SliceIndex(start, |s|);
    var to := SliceIndex(end, |s|);
    if from < to then s[from..to] else []
  }

  /** The nodes page `page` shows. */
  function Page(nodes: seq<PNode>, page: int, per: int): (r: seq<PNode>)
    ensures per >= 0 ==> |r| <= per
  {
    var start := (page - 1) * per;
    Slice(nodes, start, start + per)
  }

  /**
   * `Math.ceil(len / per)`, computed on integers; `None` when `per` is zero, where
   * the source divides by zero and gets no finite page count.
   */
  function TotalPages(len: nat, per: int): (r: Option<int>)
    ensures r.None? <==> per == 0
    ensures per > 0 ==> r.Some? && r.value >= 0 && (r.value - 1) * per < len <= r.value * per
    ensures per < 0 ==> r.Some? && r.value <= 0 && r.value * per <= len < (r.value - 1) * per
  {
    if per == 0 then None
    else if per > 0 then
      var n := (len + per - 1) / per;
      var rem := (len + per - 1) % per;
      assert n * per + rem == len + per - 1;
      assert (n - 1) * per == n * per - per;
      Some(n)
    else
      var d := -per;
      var n := len / d;
      assert n * d + len % d == len;
      assert (-n) * per == n * d;
      assert (-n - 1) * per == n * d + d;
      Some(-n)
  }

  /** Pages `1..n`, one after the other. */
  function FirstPages(nodes: seq<PNode>, per: int, n: nat): seq<PNode> {
    if n == 0 then [] else FirstPages(nodes, per, n - 1) + Page(nodes, n, per)
  }

  /** At most `k` of the nodes: `min(k, |nodes|)`. */
  function Upto(k: nat, len: nat): (r: nat)
    ensures r <= len
  {
    if k <= len then k else len
  }

  /** Page `n` is the nodes from `(n - 1) * per` up to `n * per`, clipped to the list. */
  lemma PageIsSlice(nodes: seq<PNode>, per: int, n: nat)
    requires per > 0 && n > 0
    ensures Upto((n - 1) * per, |nodes|) <= Upto(n * per, |nodes|)
    ensures Page(nodes, n, per) == nodes[Upto((n - 1) * per, |nodes|)..Upto(n * per, |nodes|)]
  {
    var start := (n - 1) * per;
    assert start + per == n * per;
  }

  /** The first `n` pages are the first `n * per` nodes, or all of them. */
  lemma {:induction false} FirstPagesPrefix(nodes: seq<PNode>, per: int, n: nat)
    requires per > 0
    ensures FirstPages(nodes, per, n) == nodes[..Upto(n * per, |nodes|)]
  {
    if n > 0 {
      FirstPagesPrefix(nodes, per, n - 1);
      PageIsSlice(nodes, per, n);
      var lo, hi := Upto((n - 1) * per, |nodes|), Upto(n * per, |nodes|);
      assert nodes[..lo] + nodes[lo..hi] == nodes[..hi];
    }
  }

  /** With a positive page size the pages the control offers show every node once, in order. */
  lemma PagesCoverList(nodes: seq<PNode>, per: int)
    requires per > 0
    ensures FirstPages(nodes, per, TotalPages(|nodes|, per).value as nat) == nodes
  {
    var n := TotalPages(|nodes|, per).value;
    FirstPagesPrefix(nodes, per, n as nat);
    assert nodes[..|nodes|] == nodes;
  }

  /** Pages past the last show nothing. */
  lemma PastLastPageIsEmpty(nodes: seq<PNode>, page: int, per: int)
    requires per > 0 && page > TotalPages(|nodes|, per).value
    ensures Page(nodes, page, per) == []
  {
    var n := TotalPages(|nodes|, per).value;
    assert (page - 1) * per >= n * per;
  }

  /**
   * The page number is never clamped, and a page below 1 makes the slice count
   * from the end: page 0 shows nothing, page -1 of a 30-node list with 10 per
   * page shows nodes 10 to 19.
   */
  lemma NegativePageCountsFromEnd(nodes: seq<PNode>)
    requires |nodes| == 30
    ensures Page(nodes, 0, 10) == []
    ensures Page(nodes, -1, 10) == nodes[10..20]
  {
  }
}
