/** The walk of `Htree2::in_htree` and `Htree2::out_htree` from the root of the tree to its leaves. */
module Htree {
  import opened BasicCircuit
  import opened PowersOfTwo

  /** The three branches of the loop: horizontal only, both, vertical only. */
  datatype Step = Horizontal | Both | Vertical

  /** The inputs of a walk: the area the tree spans, the bus width at its root, and its kind. */
  datatype Tree = Tree(width: real, height: real, initBw: nat, uca: bool, search: bool)

  /** One wire: its length and the bus width in force when its leakage is added. */
  datatype Link = Link(length: real, width: nat)

  function Halved(x: real, k: nat): real {
    if k == 0 then x else Halved(x, k - 1) / 2.0
  }

  function Doubled(x: nat, k: nat): nat {
    if k == 0 then x else 2 * Doubled(x, k - 1)
  }

  /** Repeated halving and doubling divide and multiply by a power of two. */
  lemma {:induction false} HalvedDoubled(x: real, y: nat, k: nat)
    ensures Halved(x, k) * Pow2(k) as real == x
    ensures Doubled(y, k) == y * Pow2(k)
  {
    if k > 0 {
      HalvedDoubled(x, y, k - 1);
      ScaleStep(Halved(x, k - 1), Pow2(k - 1), Doubled(y, k - 1), x, y);
    }
  }

  lemma ScaleStep(h: real, p: nat, d: nat, x: real, y: nat)
    requires h * p as real == x && d == y * p
    ensures (h / 2.0) * (2 * p) as real == x && 2 * d == y * (2 * p)
  {
    assert (2 * p) as real == 2.0 * p as real;
    assert (h / 2.0) * (2.0 * p as real) == h * p as real;
  }

  /** How often the width doubles over h horizontal and v vertical links: with each vertical link
      of a bank tree, and with each step of a search tree (a bank search tree doubles a second time
      where a step crosses both links). */
  function Doublings(h: nat, v: nat, uca: bool, search: bool): nat {
    if !uca && !search then v
    else if !search then 0
    else if uca then (if h < v then v else h)
    else h + v
  }

  /** The documented order of traversal: surplus horizontal links first, then both kinds together,
      then surplus vertical links. */
  ghost predicate Documented(steps: seq<Step>, h: nat, v: nat) {
    forall i | 0 <= i < |steps| ::
      steps[i] == if i + v < h then Horizontal else if i < h then Both else Vertical
  }

  /** The wires of one direction: each half as long as the one before it. */
  ghost predicate Halving(links: seq<Link>, whole: real) {
    forall k | 0 <= k < |links| :: links[k].length == Halved(whole, k + 1)
  }

  /** The vertical links crossed before horizontal link k. */
  function VerBefore(h: nat, v: nat, k: nat): nat {
    if h > v then (if k > h - v then k - (h - v) else 0) else k
  }

  /** The horizontal links crossed before vertical link k, in the steps before its own. */
  function HorBefore(h: nat, v: nat, k: nat): nat {
    var step := if h > v then k + (h - v) else k;
    if step < h then step else h
  }

  /** A vertical link is crossed in one step with a horizontal one. */
  predicate Joined(h: nat, v: nat, k: nat) {
    (if h > v then k + (h - v) else k) < h
  }

  /** The bus of every horizontal link: as the links crossed before it left it. */
  ghost predicate HorWidths(links: seq<Link>, t: Tree, h: nat, v: nat) {
    forall k | 0 <= k < |links| :: links[k].width == Doubled(t.initBw, Doublings(k, VerBefore(h, v, k), t.uca, t.search))
  }

  /** The bus of every vertical link: in a search tree a horizontal link in the same step has doubled it
      once more. */
  ghost predicate VerWidths(links: seq<Link>, t: Tree, h: nat, v: nat) {
    forall k | 0 <= k < |links| ::
      links[k].width == Doubled(t.initBw, Doublings(HorBefore(h, v, k), k, t.uca, t.search)
                                          + (if t.search && Joined(h, v, k) then 1 else 0))
  }

  lemma HalvingNext(links: seq<Link>, whole: real, link: Link)
    requires Halving(links, whole) && link.length == Halved(whole, |links| + 1)
    ensures Halving(links + [link], whole)
    ensures link.length / 2.0 == Halved(whole, |links + [link]| + 1)
  {}

  function TotalLength(links: seq<Link>): real {
    if links == [] then 0.0 else TotalLength(links[..|links| - 1]) + links[|links| - 1].length
  }

  /** The wires of one direction cover all of the whole but one stub. */
  lemma {:induction false} HalvingTotal(links: seq<Link>, whole: real)
    requires Halving(links, whole)
    ensures TotalLength(links) == whole - Halved(whole, |links|)
    ensures (whole - TotalLength(links)) * Pow2(|links|) as real == whole
  {
    if links != [] {
      HalvingTotal(links[..|links| - 1], whole);
    }
    HalvedDoubled(whole, 0, |links|);
  }

  /** `in_htree` and `out_htree`: every walk crosses exactly h horizontal and v vertical links in
      max(h, v) steps and in the documented order; every link carries the bus the doublings before it give. */
  method Walk(ndwl: nat, ndbl: nat, t: Tree)
    returns (hor: seq<Link>, ver: seq<Link>, wireBw: nat, ghost steps: seq<Step>)
    requires ndwl >= 2 && ndbl >= 2
    ensures |hor| == FloorLog2(ndwl / 2) && Halving(hor, t.width)
    ensures |ver| == FloorLog2(ndbl / 2) && Halving(ver, t.height / 2.0)
    ensures HorWidths(hor, t, |hor|, |ver|) && VerWidths(ver, t, |hor|, |ver|)
    ensures wireBw == Doubled(t.initBw, Doublings(|hor|, |ver|, t.uca, t.search))
    ensures |steps| == (if |hor| < |ver| then |ver| else |hor|) && Documented(steps, |hor|, |ver|)
  {
    var hLog := Log2(ndwl / 2);
    var vLog := Log2(ndbl / 2);
    hor, ver, wireBw, steps := WalkDown(hLog.value, vLog.value, t);
  }

  /** Where the walk stands with h horizontal and v vertical nodes to go. */
  ghost predicate OnWay(t: Tree, h0: nat, v0: nat, h: int, v: int, hor: seq<Link>, ver: seq<Link>, len: real, ht: real,
                        wireBw: nat, steps: seq<Step>) {
    && 0 <= h <= h0 && 0 <= v <= v0 && |hor| == h0 - h && |ver| == v0 - v
    && (h0 >= v0 ==> h >= v && (h > v ==> v == v0))
    && (h0 < v0 ==> h <= v && |hor| <= |ver| && (h > 0 ==> |hor| == |ver|))
    && |steps| == (if h0 < v0 then v0 - v else h0 - h) && Documented(steps, h0, v0)
    && len == Halved(t.width, |hor| + 1) && ht == Halved(t.height / 2.0, |ver| + 1)
    && Halving(hor, t.width) && Halving(ver, t.height / 2.0)
    && wireBw == Doubled(t.initBw, Doublings(|hor|, |ver|, t.uca, t.search))
    && HorWidths(hor, t, h0, v0) && VerWidths(ver, t, h0, v0)
  }

  lemma StepDocumented(steps: seq<Step>, h0: nat, v0: nat, option: Step)
    requires Documented(steps, h0, v0)
    requires option == if |steps| + v0 < h0 then Horizontal else if |steps| < h0 then Both else Vertical
    ensures Documented(steps + [option], h0, v0)
  {}

  lemma HorWidthsNext(links: seq<Link>, t: Tree, h: nat, v: nat, link: Link, before: nat)
    requires HorWidths(links, t, h, v) && before == VerBefore(h, v, |links|)
    requires link.width == Doubled(t.initBw, Doublings(|links|, before, t.uca, t.search))
    ensures HorWidths(links + [link], t, h, v)
  {}

  lemma VerWidthsNext(links: seq<Link>, t: Tree, h: nat, v: nat, link: Link, before: nat, joined: bool)
    requires VerWidths(links, t, h, v) && before == HorBefore(h, v, |links|) && joined == Joined(h, v, |links|)
    requires link.width == Doubled(t.initBw, Doublings(before, |links|, t.uca, t.search) + (if t.search && joined then 1 else 0))
    ensures VerWidths(links + [link], t, h, v)
  {}

  lemma AfterHorizontal(t: Tree, h0: nat, v0: nat, h: int, v: int, hor: seq<Link>, ver: seq<Link>, len: real, ht: real,
                        wireBw: nat, steps: seq<Step>)
    requires OnWay(t, h0, v0, h, v, hor, ver, len, ht, wireBw, steps) && h > v
    ensures OnWay(t, h0, v0, h - 1, v, hor + [Link(len, wireBw)], ver, len / 2.0, ht, if t.search then wireBw * 2 else wireBw,
                  steps + [Horizontal])
  {
    HalvingNext(hor, t.width, Link(len, wireBw));
    StepDocumented(steps, h0, v0, Horizontal);
    HorWidthsNext(hor, t, h0, v0, Link(len, wireBw), |ver|);
  }

  lemma AfterBoth(t: Tree, h0: nat, v0: nat, h: int, v: int, hor: seq<Link>, ver: seq<Link>, len: real, ht: real,
                  wireBw: nat, steps: seq<Step>, middle: nat)
    requires OnWay(t, h0, v0, h, v, hor, ver, len, ht, wireBw, steps) && 0 < h <= v
    requires middle == if t.search then wireBw * 2 else wireBw
    ensures OnWay(t, h0, v0, h - 1, v - 1, hor + [Link(len, wireBw)], ver + [Link(ht, middle)], len / 2.0, ht / 2.0,
                  if t.uca then middle else middle * 2, steps + [Both])
  {
    HalvingNext(hor, t.width, Link(len, wireBw));
    HalvingNext(ver, t.height / 2.0, Link(ht, middle));
    StepDocumented(steps, h0, v0, Both);
    HorWidthsNext(hor, t, h0, v0, Link(len, wireBw), |ver|);
    VerWidthsNext(ver, t, h0, v0, Link(ht, middle), |hor|, true);
  }

  lemma AfterVertical(t: Tree, h0: nat, v0: nat, v: int, hor: seq<Link>, ver: seq<Link>, len: real, ht: real,
                      wireBw: nat, steps: seq<Step>)
    requires OnWay(t, h0, v0, 0, v, hor, ver, len, ht, wireBw, steps) && v > 0
    ensures OnWay(t, h0, v0, 0, v - 1, hor, ver + [Link(ht, wireBw)], len, ht / 2.0,
                  if t.uca && !t.search then wireBw else wireBw * 2, steps + [Vertical])
  {
    HalvingNext(ver, t.height / 2.0, Link(ht, wireBw));
    StepDocumented(steps, h0, v0, Vertical);
    VerWidthsNext(ver, t, h0, v0, Link(ht, wireBw), |hor|, false);
  }

  lemma OnWayStarts(t: Tree, h: nat, v: nat)
    ensures OnWay(t, h, v, h, v, [], [], t.width / 2.0, t.height / 2.0 / 2.0, t.initBw, [])
  {
    assert Halved(t.width, 0) == t.width && Halved(t.height / 2.0, 0) == t.height / 2.0;
  }

  /** The loop of both functions, from h0 horizontal and v0 vertical nodes. */
  method WalkDown(h0: nat, v0: nat, t: Tree)
    returns (hor: seq<Link>, ver: seq<Link>, wireBw: nat, ghost steps: seq<Step>)
    ensures |hor| == h0 && Halving(hor, t.width)
    ensures |ver| == v0 && Halving(ver, t.height / 2.0)
    ensures HorWidths(hor, t, h0, v0) && VerWidths(ver, t, h0, v0)
    ensures wireBw == Doubled(t.initBw, Doublings(h0, v0, t.uca, t.search))
    ensures |steps| == (if h0 < v0 then v0 else h0) && Documented(steps, h0, v0)
  {
    var h, v := h0, v0;
    var len, ht := t.width / 2.0, t.height / 2.0 / 2.0;
    wireBw := t.initBw;
    hor, ver, steps := [], [], [];
    OnWayStarts(t, h0, v0);
    while v > 0 || h > 0
      invariant OnWay(t, h0, v0, h, v, hor, ver, len, ht, wireBw, steps)
      decreases h + v
    {
      hor, ver, len, ht, wireBw, h, v, steps := TakeStep(t, h0, v0, h, v, hor, ver, len, ht, wireBw, steps);
    }
  }

  /** One round of the loop; its last branch is reached only with no horizontal node left. */
  method TakeStep(t: Tree, ghost h0: nat, ghost v0: nat, h: int, v: int, hor: seq<Link>, ver: seq<Link>, len: real, ht: real,
                  wireBw: nat, ghost steps: seq<Step>)
    returns (hor': seq<Link>, ver': seq<Link>, len': real, ht': real, bw: nat, h': int, v': int, ghost steps': seq<Step>)
    requires OnWay(t, h0, v0, h, v, hor, ver, len, ht, wireBw, steps) && (v > 0 || h > 0)
    ensures OnWay(t, h0, v0, h', v', hor', ver', len', ht', bw, steps') && h' + v' < h + v
  {
    hor', ver', len', ht', bw, h', v' := hor, ver, len, ht, wireBw, h, v;
    var option;
    if h > v {
      hor' := hor + [Link(len, bw)];
      len' := len / 2.0;
      h' := h - 1;
      option := Horizontal;
    } else if v > 0 && h > 0 {
      hor' := hor + [Link(len, bw)];
      len', ht' := len / 2.0, ht / 2.0;
      v', h' := v - 1, h - 1;
      option := Both;
    } else {
      assert h == 0;
      ver' := ver + [Link(ht, bw)];
      ht' := ht / 2.0;
      v' := v - 1;
      option := Vertical;
    }
    if (!t.uca && option == Vertical) || t.search {
      bw := bw * 2;
    }
    ghost var middle := bw;
    if option == Both {
      ver' := ver + [Link(ht, bw)];
      if !t.uca {
        bw := bw * 2;
      }
    }
    steps' := steps + [option];
    match option
    case Horizontal => AfterHorizontal(t, h0, v0, h, v, hor, ver, len, ht, wireBw, steps);
    case Both => AfterBoth(t, h0, v0, h, v, hor, ver, len, ht, wireBw, steps, middle);
    case Vertical => AfterVertical(t, h0, v0, v, hor, ver, len, ht, wireBw, steps);
  }

  /** The documented law of a plain bank tree: one copy of the root bus for each of the 2^v leaves
      of a column; no doubling at all in a tree between banks. */
  lemma FinalWidth(t: Tree, h: nat, v: nat)
    ensures Doubled(t.initBw, Doublings(h, v, t.uca, t.search)) ==
            t.initBw * (if t.search then (if !t.uca then Pow2(h) * Pow2(v) else if h < v then Pow2(v) else Pow2(h))
                        else if t.uca then 1 else Pow2(v))
  {
    HalvedDoubled(0.0, t.initBw, Doublings(h, v, t.uca, t.search));
    Pow2Add(h, v);
  }

  /** The buses as powers of two. Without searches the links between banks all carry the root bus, and in a
      plain bank tree it doubles with the vertical links. A search tree between banks doubles it in every
      step; one of a bank doubles it with every link. */
  lemma LinkWidths(t: Tree, hor: seq<Link>, ver: seq<Link>, h: nat, v: nat, k: nat, surplus: nat)
    requires |hor| == h && |ver| == v && HorWidths(hor, t, h, v) && VerWidths(ver, t, h, v)
    requires surplus == if h > v then h - v else 0
    ensures k < h ==>
              (hor[k].width == t.initBw * Pow2((if t.search then k else 0) + (if !t.uca && k > surplus then k - surplus else 0)))
    ensures k < v && t.search ==>
              var h1 := if k + surplus < h then k + surplus + 1 else if t.uca then k + surplus else h;
              (ver[k].width == t.initBw * Pow2(h1 + (if t.uca then 0 else k)))
    ensures k < v && !t.search ==> ver[k].width == t.initBw * Pow2(if t.uca then 0 else k)
  {
    if k < h {
      HalvedDoubled(0.0, t.initBw, Doublings(k, VerBefore(h, v, k), t.uca, t.search));
    }
    if k < v {
      HalvedDoubled(0.0, t.initBw, Doublings(HorBefore(h, v, k), k, t.uca, t.search) + (if t.search && Joined(h, v, k) then 1 else 0));
    }
  }
}
