/** Resuming suspended arrays. When more bytes arrive, `parseArrayChunks`
    pops the outermost suspended array, resumes the arrays beneath it first,
    and files the value they complete into the next slot of the array it
    popped. A path of `Level`s (innermost first) describes the suspended
    arrays; the bytes still to parse are its `Tail`. */
module Resumption {
  import opened Decimal
  import opened Resp
  import opened RedisParser
  import opened Encoding
  import opened Suspension

  /** The reply a path of suspended arrays builds: its outermost array. */
  function Root(path: seq<Level>): Reply
    requires |path| >= 1
  {
    Array(path[|path| - 1].elements)
  }

  /** The slot positions of a path fit its frames: every enclosing array
      has a slot still to fill, and the innermost may be full. */
  predicate Shaped(path: seq<Level>) {
    && |path| >= 1
    && forall k :: 0 <= k < |path| ==>
         path[k].pos < |path[k].elements| || (k == 0 && path[k].pos == |path[k].elements|)
  }

  /** A path as `parseArrayElements` leaves it: each enclosing array stopped
      at the element that is the array suspended inside it. The innermost
      array may be full, which is what storing a reassembled bulk string into
      it can leave. */
  predicate PathOK(path: seq<Level>)
    decreases |path|
  {
    && Shaped(path)
    && Encodable(Root(path))
    && var last := path[|path| - 1];
       if |path| == 1 then last.pos <= |last.elements|
       else
         && last.pos < |last.elements|
         && last.elements[last.pos] == Root(path[..|path| - 1])
         && PathOK(path[..|path| - 1])
  }

  /** Where parsing resumes in the encoding of the root: past the count line
      and the finished elements of every level. */
  function PathRest(path: seq<Level>): nat
    requires Shaped(path)
    decreases |path|
  {
    var last := path[|path| - 1];
    var here := |Header(ARRAY_TAG, |last.elements|)| + |EncodeAll(last.elements[..last.pos])|;
    if |path| == 1 then here else here + PathRest(path[..|path| - 1])
  }

  /** The bytes still to parse: the rest of the innermost array, then, for
      each enclosing array, the elements after the one being parsed. */
  function Tail(path: seq<Level>): seq<byte>
    requires Shaped(path)
    decreases |path|
  {
    var last := path[|path| - 1];
    if |path| == 1 then EncodeAll(last.elements[last.pos..])
    else Tail(path[..|path| - 1]) + EncodeAll(last.elements[last.pos + 1..])
  }

  /** A cut moved `d` bytes further into an encoding. */
  function Shift(c: Cut, d: nat): Cut {
    c.(rest := d + c.rest)
  }

  /** The cut `parseArrayChunks` leaves when `j` bytes of the tail have
      arrived: the arrays beneath the popped one are cut first; past their
      end, the popped array's remaining elements are. */
  function TailCut(path: seq<Level>, j: nat, sn: bool): Cut
    requires Shaped(path) && j < |Tail(path)|
    decreases |path|
  {
    var last := path[|path| - 1];
    if |path| == 1 then CutElems(last.elements, last.pos, j, sn)
    else
      var inner := path[..|path| - 1];
      var t := |Tail(inner)|;
      if j < t then
        var c := TailCut(inner, j, sn);
        Cut(c.path + [last], c.rest, c.bulk)
      else
        Shift(CutElems(last.elements, last.pos + 1, j - t, sn), t)
  }

  /** The path with the innermost array moved on by one element. */
  function Bump(path: seq<Level>): (p: seq<Level>)
    requires |path| >= 1
    ensures |p| == |path|
  {
    path[0 := Level(path[0].elements, path[0].pos + 1)]
  }

  lemma {:induction false} EncodeAllAppend(a: seq<Reply>, b: seq<Reply>)
    ensures EncodeAll(a + b) == EncodeAll(a) + EncodeAll(b)
    decreases |a|
  {
    if |a| == 0 {
      assert a + b == b;
    } else {
      assert (a + b)[1..] == a[1..] + b;
      EncodeAllAppend(a[1..], b);
    }
  }

  /** The elements before `i`, then the element at `i`. */
  lemma {:induction false} EncodeAllPrefix(es: seq<Reply>, i: nat)
    requires i < |es|
    ensures EncodeAll(es[..i + 1]) == EncodeAll(es[..i]) + Encode(es[i])
  {
    assert es[..i + 1] == es[..i] + [es[i]];
    EncodeAllAppend(es[..i], [es[i]]);
    assert EncodeAll([es[i]]) == Encode(es[i]) + EncodeAll([]);
  }

  lemma {:induction false} EncodeAllAt(es: seq<Reply>, i: nat)
    requires i <= |es|
    ensures EncodeAll(es) == EncodeAll(es[..i]) + EncodeAll(es[i..])
  {
    hide EncodeAll, Encode;
    assert es == es[..i] + es[i..];
    EncodeAllAppend(es[..i], es[i..]);
  }

  /** Every level of a well-formed path holds a slot position its frame
      allows, and every enclosing level has a slot still to fill. */
  lemma {:induction false} PathLevels(path: seq<Level>)
    requires PathOK(path)
    ensures forall k :: 0 <= k < |path| ==> path[k].pos <= |path[k].elements|
    ensures forall k :: 1 <= k < |path| ==> path[k].pos < |path[k].elements|
    decreases |path|
  {
    if |path| > 1 {
      var inner := path[..|path| - 1];
      PathLevels(inner);
      assert forall k :: 0 <= k < |path| - 1 ==> path[k] == inner[k];
    }
  }

  lemma PathFrames(path: seq<Level>, sn: bool)
    requires PathOK(path)
    ensures ResumableFrames(CacheOf(path, sn), PosOf(path))
  {
    PathLevels(path);
  }

  /** The tail is exactly what follows the resume point in the root's
      encoding. */
  lemma {:induction false} TailAt(path: seq<Level>)
    requires PathOK(path)
    ensures PathRest(path) + |Tail(path)| == |Encode(Root(path))|
    ensures Encode(Root(path))[PathRest(path)..] == Tail(path)
    decreases |path|
  {
    if |path| == 1 {
      TailAtOne(path);
    } else {
      TailAt(path[..|path| - 1]);
      TailAtMore(path);
    }
  }

  lemma {:induction false} TailAtOne(path: seq<Level>)
    requires Shaped(path) && |path| == 1
    ensures PathRest(path) + |Tail(path)| == |Encode(Root(path))|
    ensures Encode(Root(path))[PathRest(path)..] == Tail(path)
  {
    ArrayAt(path[0].elements, path[0].pos);
  }

  /** The encoding of an array past its count line and first `q` elements
      is the encoding of the remaining elements. */
  lemma {:induction false} ArrayAt(es: seq<Reply>, q: nat)
    requires q <= |es|
    ensures var n := |Header(ARRAY_TAG, |es|)| + |EncodeAll(es[..q])|;
      && n + |EncodeAll(es[q..])| == |Encode(Array(es))|
      && Encode(Array(es))[n..] == EncodeAll(es[q..])
  {
    var pre := Header(ARRAY_TAG, |es|) + EncodeAll(es[..q]);
    EncodeAllAt(es, q);
    assert Encode(Array(es)) == pre + EncodeAll(es[q..]);
  }

  lemma {:induction false} TailAtMore(path: seq<Level>)
    requires PathOK(path) && |path| > 1
    requires var inner := path[..|path| - 1];
      && PathRest(inner) + |Tail(inner)| == |Encode(Root(inner))|
      && Encode(Root(inner))[PathRest(inner)..] == Tail(inner)
    ensures PathRest(path) + |Tail(path)| == |Encode(Root(path))|
    ensures Encode(Root(path))[PathRest(path)..] == Tail(path)
  {
    var last := path[|path| - 1];
    var es := last.elements;
    var q := last.pos;
    var inner := path[..|path| - 1];
    var pre := Header(ARRAY_TAG, |es|) + EncodeAll(es[..q]);
    assert PathRest(path) == |pre| + PathRest(inner);
    assert Tail(path) == Tail(inner) + EncodeAll(es[q + 1..]);
    RootSplit(path);
    SeqTail(Encode(Root(path)), pre, Encode(Root(inner)), EncodeAll(es[q + 1..]), PathRest(inner), Tail(inner));
  }

  /** The root's encoding around the array suspended inside it. */
  lemma {:induction false} RootSplit(path: seq<Level>)
    requires PathOK(path) && |path| > 1
    ensures
      var last := path[|path| - 1];
      var es := last.elements;
      Encode(Root(path)) ==
        Header(ARRAY_TAG, |es|) + EncodeAll(es[..last.pos]) + Encode(Root(path[..|path| - 1])) + EncodeAll(es[last.pos + 1..])
  {
    var last := path[|path| - 1];
    var es := last.elements;
    EncodeAllAt(es, last.pos);
    EncodeAllSplit(es, last.pos);
  }

  lemma SeqTail(e: seq<byte>, pre: seq<byte>, x: seq<byte>, post: seq<byte>, n: nat, t: seq<byte>)
    requires e == pre + x + post && n + |t| == |x| && x[n..] == t
    ensures |pre| + n + |t + post| == |e| && e[|pre| + n..] == t + post
  {
    assert e[|pre| + n..] == x[n..] + post;
  }

  /** Skipping whole elements: the cut of `es[a..]` lying past the elements
      `a..i` is the cut of `es[i..]`, moved past them. */
  lemma {:induction false} CutElemsSkip(es: seq<Reply>, a: nat, i: nat, j: nat, sn: bool)
    requires a <= i <= |es| && j < |EncodeAll(es[i..])|
    ensures |EncodeAll(es[a..i])| + j < |EncodeAll(es[a..])|
    ensures CutElems(es, a, |EncodeAll(es[a..i])| + j, sn) == Shift(CutElems(es, i, j, sn), |EncodeAll(es[a..i])|)
    decreases i - a
  {
    hide CutElems;
    EncodeAllAt(es[a..], i - a);
    assert es[a..][..i - a] == es[a..i] && es[a..][i - a..] == es[i..];
    if a < i {
      EncodeAllSplit(es, a);
      assert es[a..i][1..] == es[a + 1..i];
      assert EncodeAll(es[a..i]) == Encode(es[a]) + EncodeAll(es[a + 1..i]);
      hide EncodeAll, Encode;
      var d := |EncodeAll(es[a + 1..i])|;
      var e := |Encode(es[a])|;
      CutElemsSkip(es, a + 1, i, j, sn);
      CutElemsPast(es, a, e + d + j, sn);
    } else {
      assert es[a..i] == [];
    }
  }

  /** The cut of the root at any point past the resume point is the tail's
      cut, moved to the resume point: resuming suspended arrays leaves the
      state parsing the whole reply in one piece would have left. */
  lemma {:induction false} CutAtPath(path: seq<Level>, j: nat, sn: bool)
    requires PathOK(path) && j < |Tail(path)|
    ensures PathRest(path) + j < |Encode(Root(path))|
    ensures CutOf(Root(path), PathRest(path) + j, sn) == Shift(TailCut(path, j, sn), PathRest(path))
    decreases |path|
  {
    hide Tail, Encode, Root, CutOf, PathRest;
    TailAt(path);
    if |path| == 1 {
      CutAtOne(path, j, sn);
    } else {
      var inner := path[..|path| - 1];
      TailAt(inner);
      if j < |Tail(inner)| {
        CutAtPath(inner, j, sn);
        CutAtInner(path, j, sn);
      } else {
        CutAtOuter(path, j, sn);
      }
    }
  }

  lemma {:induction false} CutAtOne(path: seq<Level>, j: nat, sn: bool)
    requires PathOK(path) && |path| == 1 && j < |Tail(path)|
    requires PathRest(path) + j < |Encode(Root(path))|
    ensures CutOf(Root(path), PathRest(path) + j, sn) == Shift(TailCut(path, j, sn), PathRest(path))
  {
    hide CutOf, CutElems;
    var es := path[0].elements;
    var q := path[0].pos;
    assert Root(path) == Array(es);
    assert PathRest(path) == |Header(ARRAY_TAG, |es|)| + |EncodeAll(es[..q])|;
    assert TailCut(path, j, sn) == CutElems(es, q, j, sn);
    CutElemsFrom(es, q, j, sn);
    CutOfArray(es, |EncodeAll(es[..q])| + j, sn);
  }

  /** The cut of an array past its count line. */
  lemma CutOfArray(es: seq<Reply>, y: nat, sn: bool)
    requires y < |EncodeAll(es)|
    ensures |Header(ARRAY_TAG, |es|)| + y < |Encode(Array(es))|
    ensures y < |EncodeAll(es[0..])|
    ensures CutOf(Array(es), |Header(ARRAY_TAG, |es|)| + y, sn) == Shift(CutElems(es, 0, y, sn), |Header(ARRAY_TAG, |es|)|)
  {
    assert es[0..] == es;
  }

  /** `CutElemsSkip` from the first element. */
  lemma {:induction false} CutElemsFrom(es: seq<Reply>, q: nat, y: nat, sn: bool)
    requires q <= |es| && y < |EncodeAll(es[q..])|
    ensures |EncodeAll(es[..q])| + y < |EncodeAll(es)|
    ensures |EncodeAll(es[..q])| + y < |EncodeAll(es[0..])|
    ensures CutElems(es, 0, |EncodeAll(es[..q])| + y, sn) == Shift(CutElems(es, q, y, sn), |EncodeAll(es[..q])|)
  {
    assert es[0..q] == es[..q] && es[0..] == es;
    CutElemsSkip(es, 0, q, y, sn);
  }

  /** The cut of elements landing in the element at `q`. */
  lemma CutElemsHere(es: seq<Reply>, q: nat, y: nat, sn: bool)
    requires q < |es| && y < |Encode(es[q])|
    ensures y < |EncodeAll(es[q..])|
    ensures CutElems(es, q, y, sn) == Cut(CutOf(es[q], y, sn).path + [Level(es, q)], CutOf(es[q], y, sn).rest, CutOf(es[q], y, sn).bulk)
  {
    EncodeAllSplit(es, q);
  }

  /** The cut of elements lying past the element at `q`. */
  lemma CutElemsPast(es: seq<Reply>, q: nat, y: nat, sn: bool)
    requires q < |es| && |Encode(es[q])| <= y < |EncodeAll(es[q..])|
    ensures y - |Encode(es[q])| < |EncodeAll(es[q + 1..])|
    ensures CutElems(es, q, y, sn) == Shift(CutElems(es, q + 1, y - |Encode(es[q])|, sn), |Encode(es[q])|)
  {
    EncodeAllSplit(es, q);
  }

  /** The part of the root's encoding before the array suspended inside it. */
  lemma RestMore(path: seq<Level>)
    requires PathOK(path) && |path| > 1
    ensures var last := path[|path| - 1];
      PathRest(path) == |Header(ARRAY_TAG, |last.elements|)| + |EncodeAll(last.elements[..last.pos])| + PathRest(path[..|path| - 1])
  {
  }

  /** The cut of an array landing inside its element `q`, from that
      element's own cut. */
  lemma {:induction false} ElemsInner(es: seq<Reply>, q: nat, r: nat, j: nat, tc: Cut, sn: bool)
    requires q < |es| && r + j < |Encode(es[q])|
    requires CutOf(es[q], r + j, sn) == Shift(tc, r)
    ensures |Header(ARRAY_TAG, |es|)| + |EncodeAll(es[..q])| + r + j < |Encode(Array(es))|
    ensures CutOf(Array(es), |Header(ARRAY_TAG, |es|)| + |EncodeAll(es[..q])| + r + j, sn) ==
      Shift(Cut(tc.path + [Level(es, q)], tc.rest, tc.bulk), |Header(ARRAY_TAG, |es|)| + |EncodeAll(es[..q])| + r)
  {
    hide Encode, EncodeAll, Header;
    var e := |EncodeAll(es[..q])|;
    EncodeAllSplit(es, q);
    CutElemsHere(es, q, r + j, sn);
    CutElemsFrom(es, q, r + j, sn);
    CutOfArray(es, e + r + j, sn);
  }

  /** The cut of an array lying past its element `q`. */
  lemma {:induction false} ElemsOuter(es: seq<Reply>, q: nat, y: nat, sn: bool)
    requires q < |es| && |Encode(es[q])| <= y < |EncodeAll(es[q..])|
    ensures |Header(ARRAY_TAG, |es|)| + |EncodeAll(es[..q])| + y < |Encode(Array(es))|
    ensures y - |Encode(es[q])| < |EncodeAll(es[q + 1..])|
    ensures CutOf(Array(es), |Header(ARRAY_TAG, |es|)| + |EncodeAll(es[..q])| + y, sn) ==
      Shift(CutElems(es, q + 1, y - |Encode(es[q])|, sn), |Header(ARRAY_TAG, |es|)| + |EncodeAll(es[..q])| + |Encode(es[q])|)
  {
    hide CutOf, CutElems, Encode, EncodeAll, Header;
    CutElemsPast(es, q, y, sn);
    CutElemsFrom(es, q, y, sn);
    CutOfArray(es, |EncodeAll(es[..q])| + y, sn);
  }

  lemma {:induction false} CutAtInner(path: seq<Level>, j: nat, sn: bool)
    requires PathOK(path) && |path| > 1
    requires var inner := path[..|path| - 1];
      && j < |Tail(inner)| && PathRest(inner) + |Tail(inner)| == |Encode(Root(inner))|
      && CutOf(Root(inner), PathRest(inner) + j, sn) == Shift(TailCut(inner, j, sn), PathRest(inner))
    requires PathRest(path) + j < |Encode(Root(path))|
    ensures CutOf(Root(path), PathRest(path) + j, sn) == Shift(TailCut(path, j, sn), PathRest(path))
  {
    hide CutOf, Encode, EncodeAll, CutElems;
    var last := path[|path| - 1];
    var inner := path[..|path| - 1];
    RestMore(path);
    ElemsInner(last.elements, last.pos, PathRest(inner), j, TailCut(inner, j, sn), sn);
  }

  lemma {:induction false} CutAtOuter(path: seq<Level>, j: nat, sn: bool)
    requires PathOK(path) && |path| > 1
    requires var inner := path[..|path| - 1];
      && |Tail(inner)| <= j < |Tail(path)| && PathRest(inner) + |Tail(inner)| == |Encode(Root(inner))|
    requires PathRest(path) + j < |Encode(Root(path))|
    ensures CutOf(Root(path), PathRest(path) + j, sn) == Shift(TailCut(path, j, sn), PathRest(path))
  {
    var last := path[|path| - 1];
    var inner := path[..|path| - 1];
    RestMore(path);
    EncodeAllSplit(last.elements, last.pos);
    ElemsOuter(last.elements, last.pos, PathRest(inner) + j, sn);
  }

  /** The count line of the bulk string a cut is reassembling, if any: the
      cut's offset lies past it. */
  function BulkHead(c: Cut): nat {
    match c.bulk
    case None => 0
    case Some(len) => |Header(BULK_TAG, len)|
  }

  /** The innermost array of `path` stopped at a bulk string of `len` bytes. */
  predicate InnerBulk(path: seq<Level>, len: nat) {
    && |path| >= 1
    && path[0].pos < |path[0].elements|
    && path[0].elements[path[0].pos].Bulk?
    && |path[0].elements[path[0].pos].bytes| == len
  }

  /** What a cut keeps, in terms of paths: nothing; the count line of a
      top-level bulk string; or a well-formed path of suspended arrays of `r`,
      resuming at the path's resume point (past the count line of a bulk
      string its innermost array stopped at). */
  predicate CutShape(r: Reply, c: Cut) {
    && (c.path == [] && c.bulk.None? ==> c == Rolled)
    && (c.path == [] && c.bulk.Some? ==>
          r.Bulk? && c.bulk.value == |r.bytes| && c.rest == |Header(BULK_TAG, |r.bytes|)|)
    && (c.path != [] ==>
          && PathOK(c.path) && Root(c.path) == r && c.rest == PathRest(c.path) + BulkHead(c)
          && (c.bulk.Some? ==> InnerBulk(c.path, c.bulk.value)))
  }

  /** The same for the cut of the elements `es[i..]` of an array, whose
      offset is counted from element `i`. */
  predicate ElemsShape(es: seq<Reply>, i: nat, c: Cut) {
    && c.path != [] && PathOK(c.path) && Root(c.path) == Array(es)
    && i <= |es|
    && |Header(ARRAY_TAG, |es|)| + |EncodeAll(es[..i])| + c.rest == PathRest(c.path) + BulkHead(c)
    && (c.bulk.Some? ==> InnerBulk(c.path, c.bulk.value))
  }

  lemma {:induction false} CutOfShape(r: Reply, k: nat, sn: bool)
    requires Encodable(r) && k < |Encode(r)|
    ensures CutShape(r, CutOf(r, k, sn))
    decreases r, 1
  {
    match r
    case Array(es) =>
      var h := |Header(ARRAY_TAG, |es|)|;
      if k >= h {
        assert es[0..] == es;
        CutElemsShape(es, 0, k - h, sn);
        assert es[..0] == [];
      }
    case _ =>
  }

  lemma {:induction false} CutElemsShape(es: seq<Reply>, i: nat, y: nat, sn: bool)
    requires Encodable(Array(es)) && i <= |es| && y < |EncodeAll(es[i..])|
    ensures ElemsShape(es, i, CutElems(es, i, y, sn))
    decreases es, 0, |es| - i
  {
    EncodeAllSplit(es, i);
    if y < |Encode(es[i])| {
      CutOfShape(es[i], y, sn);
      ElemsShapeHere(es, i, y, sn);
    } else {
      CutElemsShape(es, i + 1, y - |Encode(es[i])|, sn);
      ElemsShapePast(es, i, y, sn);
    }
  }

  lemma ElemsShapeHere(es: seq<Reply>, i: nat, y: nat, sn: bool)
    requires Encodable(Array(es)) && i < |es| && y < |Encode(es[i])|
    requires CutShape(es[i], CutOf(es[i], y, sn))
    ensures y < |EncodeAll(es[i..])|
    ensures ElemsShape(es, i, CutElems(es, i, y, sn))
  {
    CutElemsHere(es, i, y, sn);
    var c := CutOf(es[i], y, sn);
    var path := c.path + [Level(es, i)];
    assert path[..|path| - 1] == c.path;
    if c.path == [] {
      assert path == [Level(es, i)];
    } else {
      assert path[0] == c.path[0];
      ShapedAppend(c.path, Level(es, i));
    }
  }

  /** An enclosing level with a slot still to fill keeps a path shaped. */
  lemma ShapedAppend(path: seq<Level>, l: Level)
    requires Shaped(path) && l.pos < |l.elements|
    ensures Shaped(path + [l])
  {
    var p := path + [l];
    forall k | 0 <= k < |p|
      ensures p[k].pos < |p[k].elements| || (k == 0 && p[k].pos == |p[k].elements|)
    {
      if k < |path| {
        assert p[k] == path[k];
      }
    }
  }

  lemma {:induction false} ElemsShapePast(es: seq<Reply>, i: nat, y: nat, sn: bool)
    requires Encodable(Array(es)) && i < |es| && |Encode(es[i])| <= y < |EncodeAll(es[i..])|
    requires ElemsShape(es, i + 1, CutElems(es, i + 1, y - |Encode(es[i])|, sn))
    ensures ElemsShape(es, i, CutElems(es, i, y, sn))
  {
    CutElemsPast(es, i, y, sn);
    EncodeAllPrefix(es, i);
  }

  /** Moving the innermost array past the element it stopped at keeps the
      path well formed and moves its resume point past that element. */
  lemma {:induction false} BumpPath(path: seq<Level>)
    requires PathOK(path) && path[0].pos < |path[0].elements|
    ensures PathOK(Bump(path)) && Root(Bump(path)) == Root(path)
    ensures PathRest(Bump(path)) == PathRest(path) + |Encode(path[0].elements[path[0].pos])|
    decreases |path|
  {
    var b := Bump(path);
    if |path| == 1 {
      EncodeAllPrefix(path[0].elements, path[0].pos);
    } else {
      var inner := path[..|path| - 1];
      assert b[..|b| - 1] == Bump(inner);
      assert inner[0] == path[0];
      BumpPath(inner);
      BumpMore(path);
    }
  }

  lemma BumpMore(path: seq<Level>)
    requires PathOK(path) && |path| > 1 && path[0].pos < |path[0].elements|
    requires var inner := path[..|path| - 1];
      && PathOK(Bump(inner)) && Root(Bump(inner)) == Root(inner)
      && PathRest(Bump(inner)) == PathRest(inner) + |Encode(path[0].elements[path[0].pos])|
    ensures PathOK(Bump(path)) && Root(Bump(path)) == Root(path)
    ensures PathRest(Bump(path)) == PathRest(path) + |Encode(path[0].elements[path[0].pos])|
  {
    var b := Bump(path);
    var inner := path[..|path| - 1];
    assert b[..|b| - 1] == Bump(inner);
    assert b[|b| - 1] == path[|path| - 1];
  }

  /** The stacks of the bumped path: the innermost frame has the element it
      stopped at filled in, and its position moved on. */
  lemma {:induction false} BumpCache(path: seq<Level>, sn: bool)
    requires |path| >= 1 && path[0].pos < |path[0].elements|
    ensures var l := path[0];
      && CacheOf(Bump(path), sn) ==
           CacheOf(path, sn)[0 := FrameOf(l.elements, l.pos, sn)[l.pos := Filled(Decoded(l.elements[l.pos], sn))]]
      && PosOf(Bump(path)) == PosOf(path)[0 := l.pos + 1]
  {
    FrameStep(path[0].elements, path[0].pos, sn);
  }

  /** `st` holds the suspended arrays of `path` and no bulk string. */
  predicate Suspends(st: State, buf: seq<byte>, path: seq<Level>) {
    && PathOK(path) && At(st, buf) && NoBulk(st)
    && st.arrayCache == CacheOf(path, st.stringNumbers) && st.arrayPos == PosOf(path)
  }

  /** What resuming the arrays of `path` yields: when their tail has fully
      arrived, the root, with both stacks emptied; when only part of it has,
      the arrays suspended again exactly as the tail's cut says. */
  predicate Resumes(st: State, buf: seq<byte>, path: seq<Level>, r: Step)
    requires PathOK(path)
  {
    && (Holds(buf, st.offset, Tail(path)) ==>
          r == Step(Complete(Decoded(Root(path), st.stringNumbers)),
                    st.(offset := st.offset + |Tail(path)|, arrayCache := [], arrayPos := []), []))
    && (Partial(buf, st.offset, Tail(path)) ==>
          r == Step(Incomplete, Resumed(st, buf, st.offset, TailCut(path, |buf| - st.offset, st.stringNumbers)), []))
  }

  /** `parseArrayChunks` resumes the suspended arrays of any well-formed path
      as one parse of the root would have gone on. */
  lemma {:induction false} Resume(st: State, buf: seq<byte>, path: seq<Level>)
    requires Suspends(st, buf, path)
    requires Holds(buf, st.offset, Tail(path)) || Partial(buf, st.offset, Tail(path))
    ensures ResumableFrames(st.arrayCache, st.arrayPos) && |st.arrayCache| >= 1
    ensures Resumes(st, buf, path, ParseArrayChunks(st, buf))
    decreases |path|
  {
    PathFrames(path, st.stringNumbers);
    if |path| == 1 {
      ResumeOne(st, buf, path);
    } else {
      var inner := path[..|path| - 1];
      var popped := st.(arrayCache := st.arrayCache[..|path| - 1], arrayPos := st.arrayPos[..|path| - 1]);
      PoppedSuspends(st, popped, buf, path);
      Resume(popped, buf, inner);
      ResumeMore(st, popped, buf, path);
    }
  }

  /** Popping the outermost array leaves the inner path suspended, and the
      inner tail is a prefix of the whole tail. */
  lemma {:induction false} PoppedSuspends(st: State, popped: State, buf: seq<byte>, path: seq<Level>)
    requires Suspends(st, buf, path) && |path| > 1
    requires Holds(buf, st.offset, Tail(path)) || Partial(buf, st.offset, Tail(path))
    requires popped == st.(arrayCache := st.arrayCache[..|path| - 1], arrayPos := st.arrayPos[..|path| - 1])
    ensures Suspends(popped, buf, path[..|path| - 1])
    ensures Holds(buf, st.offset, Tail(path[..|path| - 1])) || Partial(buf, st.offset, Tail(path[..|path| - 1]))
  {
    PoppedFrames(st, popped, buf, path);
    PoppedBytes(buf, st.offset, path);
  }

  /** The popped state holds the frames of the inner path. */
  lemma PoppedFrames(st: State, popped: State, buf: seq<byte>, path: seq<Level>)
    requires Suspends(st, buf, path) && |path| > 1
    requires popped == st.(arrayCache := st.arrayCache[..|path| - 1], arrayPos := st.arrayPos[..|path| - 1])
    ensures Suspends(popped, buf, path[..|path| - 1])
  {
    var inner := path[..|path| - 1];
    assert popped.arrayCache == CacheOf(inner, st.stringNumbers) && popped.arrayPos == PosOf(inner);
  }

  /** The tail of the inner path starts the tail of the whole path. */
  lemma {:induction false} PoppedBytes(buf: seq<byte>, o: int, path: seq<Level>)
    requires PathOK(path) && |path| > 1
    requires Holds(buf, o, Tail(path)) || Partial(buf, o, Tail(path))
    ensures PathOK(path[..|path| - 1])
    ensures Holds(buf, o, Tail(path[..|path| - 1])) || Partial(buf, o, Tail(path[..|path| - 1]))
  {
    hide Encode, EncodeAll, Encodable;
    var inner := path[..|path| - 1];
    var last := path[|path| - 1];
    var rest := EncodeAll(last.elements[last.pos + 1..]);
    assert Tail(path) == Tail(inner) + rest;
    if Holds(buf, o, Tail(path)) {
      HoldsSplit(buf, o, Tail(inner), rest);
    } else {
      PartialSplit(buf, o, Tail(inner), rest);
    }
  }

  /** The inductive step of `Resume`: the arrays beneath the popped one
      resumed as their path says. */
  lemma {:induction false} ResumeMore(st: State, popped: State, buf: seq<byte>, path: seq<Level>)
    requires Suspends(st, buf, path) && |path| > 1
    requires popped == st.(arrayCache := st.arrayCache[..|path| - 1], arrayPos := st.arrayPos[..|path| - 1])
    requires ResumableFrames(st.arrayCache, st.arrayPos) && ResumableFrames(popped.arrayCache, popped.arrayPos)
    requires |popped.arrayCache| >= 1
    requires Resumes(popped, buf, path[..|path| - 1], ParseArrayChunks(popped, buf))
    requires Holds(buf, st.offset, Tail(path)) || Partial(buf, st.offset, Tail(path))
    ensures Resumes(st, buf, path, ParseArrayChunks(st, buf))
  {
    var inner := path[..|path| - 1];
    TailSplit(path, buf, st.offset);
    if |buf| - st.offset < |Tail(inner)| {
      ResumePending(st, popped, buf, path);
    } else {
      InnerReady(st, popped, buf, path);
      if Holds(buf, st.offset, Tail(path)) {
        ResumeDone(st, popped, buf, path);
      } else {
        ResumeCut(st, popped, buf, path);
      }
    }
  }

  /** The whole tail has arrived: the root completes. */
  lemma {:induction false} ResumeDone(st: State, popped: State, buf: seq<byte>, path: seq<Level>)
    requires PathOK(path) && |path| > 1 && At(st, buf) && NoBulk(st)
    requires ResumableFrames(st.arrayCache, st.arrayPos) && ResumableFrames(popped.arrayCache, popped.arrayPos)
    requires Popped(st, popped, buf, path)
    requires Holds(buf, st.offset, Tail(path))
    ensures Resumes(st, buf, path, ParseArrayChunks(st, buf))
  {
    var last := path[|path| - 1];
    var t := |Tail(path[..|path| - 1])|;
    var x := Step(Complete(Decoded(Array(last.elements), st.stringNumbers)),
                  st.(offset := st.offset + t + |EncodeAll(last.elements[last.pos + 1..])|, arrayCache := [], arrayPos := []), []);
    DoneStep(st, popped, buf, path, t, x);
    RestFromDone(st, buf, path, t, x);
  }

  /** With the whole tail in the buffer, the root array completes just past
      the elements after the popped one. */
  lemma {:induction false} DoneStep(st: State, popped: State, buf: seq<byte>, path: seq<Level>, t: nat, x: Step)
    requires PathOK(path) && |path| > 1 && At(st, buf) && NoBulk(st)
    requires ResumableFrames(st.arrayCache, st.arrayPos) && ResumableFrames(popped.arrayCache, popped.arrayPos)
    requires Popped(st, popped, buf, path)
    requires Holds(buf, st.offset, Tail(path))
    requires var last := path[|path| - 1];
      && t == |Tail(path[..|path| - 1])| && last.pos < |last.elements|
      && x == Step(Complete(Decoded(Array(last.elements), st.stringNumbers)),
                   st.(offset := st.offset + t + |EncodeAll(last.elements[last.pos + 1..])|, arrayCache := [], arrayPos := []), [])
    ensures ParseArrayChunks(st, buf) == x
  {
    hide ParseArrayChunks, Tail, EncodeAll, Encode, Decoded, FrameOf, Holds, Root;
    var last := path[|path| - 1];
    var es := last.elements;
    var q := last.pos;
    var st2 := st.(offset := st.offset + t, arrayCache := [], arrayPos := []);
    TailDone(path, buf, st.offset);
    FilledDone(st, popped, st2, buf, es, q, t);
  }

  /** What the arrays beneath the popped one leave when the inner tail has
      arrived, in terms of the popped array's pending element. */
  predicate Popped(st: State, popped: State, buf: seq<byte>, path: seq<Level>)
    requires PathOK(path) && |path| > 1
  {
    var last := path[|path| - 1];
    && |st.arrayCache| == |path| && |st.arrayPos| == |path|
    && last.pos < |last.elements| && Encodable(Array(last.elements))
    && st.arrayCache[|st.arrayCache| - 1] == FrameOf(last.elements, last.pos, st.stringNumbers)
    && st.arrayPos[|st.arrayPos| - 1] == last.pos
    && popped == st.(arrayCache := st.arrayCache[..|st.arrayCache| - 1], arrayPos := st.arrayPos[..|st.arrayPos| - 1])
    && ResumableFrames(popped.arrayCache, popped.arrayPos)
    && At(popped, buf) && NoBulk(popped)
    && ParseArrayChunks(popped, buf) ==
         Step(Complete(Decoded(last.elements[last.pos], st.stringNumbers)),
              st.(offset := st.offset + |Tail(path[..|path| - 1])|, arrayCache := [], arrayPos := []), [])
  }

  /** `Popped` holds once the inner tail has arrived. */
  lemma InnerReady(st: State, popped: State, buf: seq<byte>, path: seq<Level>)
    requires Suspends(st, buf, path) && |path| > 1
    requires popped == st.(arrayCache := st.arrayCache[..|path| - 1], arrayPos := st.arrayPos[..|path| - 1])
    requires ResumableFrames(popped.arrayCache, popped.arrayPos) && |popped.arrayCache| >= 1
    requires Resumes(popped, buf, path[..|path| - 1], ParseArrayChunks(popped, buf))
    requires Holds(buf, st.offset, Tail(path[..|path| - 1]))
    ensures Popped(st, popped, buf, path)
  {
    var inner := path[..|path| - 1];
    var st2 := st.(offset := st.offset + |Tail(inner)|, arrayCache := [], arrayPos := []);
    PathLast(path);
    InnerDone(popped, buf, inner, ParseArrayChunks(popped, buf), st2);
  }

  /** The inner tail has arrived, the rest of the popped array's elements
      only in part: the popped array is cut inside them. */
  lemma {:induction false} ResumeCut(st: State, popped: State, buf: seq<byte>, path: seq<Level>)
    requires PathOK(path) && |path| > 1 && At(st, buf) && NoBulk(st)
    requires ResumableFrames(st.arrayCache, st.arrayPos) && ResumableFrames(popped.arrayCache, popped.arrayPos)
    requires Popped(st, popped, buf, path)
    requires Partial(buf, st.offset, Tail(path))
    requires |Tail(path[..|path| - 1])| <= |buf| - st.offset
    ensures Resumes(st, buf, path, ParseArrayChunks(st, buf))
  {
    hide ParseArrayChunks, ParseElements, Tail, TailCut, EncodeAll, Encode, Decoded, FrameOf;
    var inner := path[..|path| - 1];
    var last := path[|path| - 1];
    var es := last.elements;
    var q := last.pos;
    var t := |Tail(inner)|;
    var st2 := st.(offset := st.offset + t, arrayCache := [], arrayPos := []);
    TailCutAfter(path, buf, st.offset);
    var j := |buf| - (st.offset + t);
    FilledCut(st, popped, st2, buf, es, q, t, j);
    var x := Step(Incomplete, Resumed(st, buf, st.offset, Shift(CutElems(es, q + 1, j, st.stringNumbers), t)), []);
    RestFromCut(st, buf, path, t, j, x);
  }

  /** The whole tail holds both the inner tail and the popped array's
      remaining elements after it. */
  lemma {:induction false} TailDone(path: seq<Level>, buf: seq<byte>, o: nat)
    requires PathOK(path) && |path| > 1 && Holds(buf, o, Tail(path))
    ensures var inner := path[..|path| - 1];
      var last := path[|path| - 1];
      && PathOK(inner) && last.pos < |last.elements| && last.elements[last.pos] == Root(inner)
      && Holds(buf, o, Tail(inner))
      && Holds(buf, o + |Tail(inner)|, EncodeAll(last.elements[last.pos + 1..]))
  {
    PathLast(path);
    TailSplit(path, buf, o);
  }

  /** A tail cut past the inner tail holds the inner tail and part of the
      popped array's remaining elements. */
  lemma {:induction false} TailCutAfter(path: seq<Level>, buf: seq<byte>, o: nat)
    requires PathOK(path) && |path| > 1 && Partial(buf, o, Tail(path))
    requires |Tail(path[..|path| - 1])| <= |buf| - o
    ensures var inner := path[..|path| - 1];
      var last := path[|path| - 1];
      && PathOK(inner) && last.pos < |last.elements| && last.elements[last.pos] == Root(inner)
      && Holds(buf, o, Tail(inner))
      && Partial(buf, o + |Tail(inner)|, EncodeAll(last.elements[last.pos + 1..]))
  {
    PathLast(path);
    TailSplit(path, buf, o);
  }

  /** How the whole tail of a path splits at the end of its inner tail. */
  lemma {:induction false} TailSplit(path: seq<Level>, buf: seq<byte>, o: nat)
    requires PathOK(path) && |path| > 1
    requires Holds(buf, o, Tail(path)) || Partial(buf, o, Tail(path))
    ensures var inner := path[..|path| - 1];
      var last := path[|path| - 1];
      var rest := EncodeAll(last.elements[last.pos + 1..]);
      && PathOK(inner) && last.pos + 1 <= |last.elements|
      && Tail(path) == Tail(inner) + rest
      && (|buf| - o < |Tail(inner)| ==> Partial(buf, o, Tail(inner)))
      && (|buf| - o >= |Tail(inner)| ==>
            && Holds(buf, o, Tail(inner))
            && (Holds(buf, o + |Tail(inner)|, rest) <==> Holds(buf, o, Tail(path)))
            && (Partial(buf, o + |Tail(inner)|, rest) <==> Partial(buf, o, Tail(path))))
  {
    var inner := path[..|path| - 1];
    var last := path[|path| - 1];
    var rest := EncodeAll(last.elements[last.pos + 1..]);
    if Holds(buf, o, Tail(path)) {
      HoldsSplit(buf, o, Tail(inner), rest);
    } else {
      PartialSplit(buf, o, Tail(inner), rest);
    }
  }

  lemma {:induction false} ResumeOne(st: State, buf: seq<byte>, path: seq<Level>)
    requires Suspends(st, buf, path) && |path| == 1
    requires Holds(buf, st.offset, Tail(path)) || Partial(buf, st.offset, Tail(path))
    requires ResumableFrames(st.arrayCache, st.arrayPos)
    ensures Resumes(st, buf, path, ParseArrayChunks(st, buf))
  {
    hide ParseArrayChunks, ParseElements, Tail, TailCut, EncodeAll, Encode, Decoded, FrameOf;
    var es := path[0].elements;
    var q := path[0].pos;
    var sn := st.stringNumbers;
    var popped := st.(arrayCache := [], arrayPos := []);
    ChunksLast(st, buf);
    assert st.arrayCache[0] == FrameOf(es, q, sn) && st.arrayPos[0] == q;
    PathOne(path, |buf| - st.offset, sn);
    ElementsFrom(popped, buf, es, q);
  }

  /** A path of one array: its tail and tail cut are its elements'. */
  lemma PathOne(path: seq<Level>, j: nat, sn: bool)
    requires PathOK(path) && |path| == 1
    ensures Root(path) == Array(path[0].elements)
    ensures Tail(path) == EncodeAll(path[0].elements[path[0].pos..])
    ensures j < |Tail(path)| ==> TailCut(path, j, sn) == CutElems(path[0].elements, path[0].pos, j, sn)
  {
  }

  /** Parsing the elements `es[i..]` of an array whose first `i` are parsed:
      the whole array when they have all arrived, else its cut. */
  lemma {:induction false} ElementsFrom(st: State, buf: seq<byte>, es: seq<Reply>, i: nat)
    requires Fresh(st, buf) && i <= |es| && Encodable(Array(es))
    requires Holds(buf, st.offset, EncodeAll(es[i..])) || Partial(buf, st.offset, EncodeAll(es[i..]))
    ensures FilledUpTo(FrameOf(es, i, st.stringNumbers), i)
    ensures Holds(buf, st.offset, EncodeAll(es[i..])) ==>
      ParseElements(st, buf, FrameOf(es, i, st.stringNumbers), i) ==
        Step(Complete(Decoded(Array(es), st.stringNumbers)), st.(offset := st.offset + |EncodeAll(es[i..])|), [])
    ensures Partial(buf, st.offset, EncodeAll(es[i..])) ==>
      ParseElements(st, buf, FrameOf(es, i, st.stringNumbers), i) ==
        Step(Incomplete, Resumed(st, buf, st.offset, CutElems(es, i, |buf| - st.offset, st.stringNumbers)), [])
  {
    if Holds(buf, st.offset, EncodeAll(es[i..])) {
      ElementsEncode(st, buf, FrameOf(es, i, st.stringNumbers), i, es);
    } else {
      PartialElements(st, buf, es, i);
    }
  }

  /** `parseArrayChunks` with a single suspended array parses its remaining
      elements. */
  lemma ChunksLast(st: State, buf: seq<byte>)
    requires At(st, buf) && NoBulk(st) && |st.arrayCache| == 1 && ResumableFrames(st.arrayCache, st.arrayPos)
    ensures FilledUpTo(st.arrayCache[0], st.arrayPos[0])
    ensures ParseArrayChunks(st, buf) ==
      ParseElements(st.(arrayCache := [], arrayPos := []), buf, st.arrayCache[0], st.arrayPos[0])
  {
    assert st.arrayCache[..0] == [] && st.arrayPos[..0] == [];
  }

  /** `parseArrayChunks` when the arrays beneath the popped one return
      `undefined`: the popped array is pushed back. */
  lemma ChunksPush(st: State, popped: State, buf: seq<byte>, s: Step)
    requires At(st, buf) && NoBulk(st) && |st.arrayCache| > 1 && ResumableFrames(st.arrayCache, st.arrayPos)
    requires popped == st.(arrayCache := st.arrayCache[..|st.arrayCache| - 1], arrayPos := st.arrayPos[..|st.arrayPos| - 1])
    requires ResumableFrames(popped.arrayCache, popped.arrayPos)
    requires ParseArrayChunks(popped, buf) == s && s.out.Incomplete?
    ensures ParseArrayChunks(st, buf) ==
      Step(Incomplete, Push(s.st, st.arrayCache[|st.arrayCache| - 1], st.arrayPos[|st.arrayPos| - 1]), s.fatal)
  {
  }

  /** `parseArrayChunks` when the arrays beneath the popped one complete:
      their value fills the popped array's slot. */
  lemma ChunksFill(st: State, popped: State, buf: seq<byte>, reply: Reply, st1: State)
    requires At(st, buf) && NoBulk(st) && |st.arrayCache| > 1 && ResumableFrames(st.arrayCache, st.arrayPos)
    requires popped == st.(arrayCache := st.arrayCache[..|st.arrayCache| - 1], arrayPos := st.arrayPos[..|st.arrayPos| - 1])
    requires ResumableFrames(popped.arrayCache, popped.arrayPos)
    requires ParseArrayChunks(popped, buf) == Step(Complete(reply), st1, [])
    ensures var arr := st.arrayCache[|st.arrayCache| - 1];
      var pos := st.arrayPos[|st.arrayPos| - 1];
      && At(st1, buf) && NoBulk(st1) && st1.arrayCache == [] && st1.arrayPos == []
      && 0 <= pos < |arr| && FilledUpTo(arr[pos := Filled(reply)], pos + 1)
      && ParseArrayChunks(st, buf) == ParseElements(st1, buf, arr[pos := Filled(reply)], pos + 1)
  {
    var arr := st.arrayCache[|st.arrayCache| - 1];
    var pos := st.arrayPos[|st.arrayPos| - 1];
    assert FilledUpTo(arr[pos := Filled(reply)], pos + 1);
  }

  /** Pushing the popped array back onto a state cut along the inner path
      gives the state cut along the whole path. */
  lemma PushResumed(st: State, popped: State, buf: seq<byte>, path: seq<Level>, o: int, c: Cut)
    requires |path| > 1 && popped.stringNumbers == st.stringNumbers
    requires popped == st.(arrayCache := popped.arrayCache, arrayPos := popped.arrayPos)
    ensures var last := path[|path| - 1];
      Push(Resumed(popped, buf, o, c), FrameOf(last.elements, last.pos, st.stringNumbers), last.pos) ==
        Resumed(st, buf, o, Cut(c.path + [last], c.rest, c.bulk))
  {
    CacheOfAppend(c.path, path[|path| - 1], st.stringNumbers);
  }

  /** The tail cut inside the arrays beneath the popped one. */
  lemma TailCutInner(path: seq<Level>, j: nat, sn: bool)
    requires PathOK(path) && |path| > 1 && j < |Tail(path[..|path| - 1])|
    ensures j < |Tail(path)|
    ensures var c := TailCut(path[..|path| - 1], j, sn);
      TailCut(path, j, sn) == Cut(c.path + [path[|path| - 1]], c.rest, c.bulk)
  {
  }

  /** The tail cut past the arrays beneath the popped one. */
  lemma TailCutOuter(path: seq<Level>, j: nat, sn: bool)
    requires PathOK(path) && |path| > 1 && |Tail(path[..|path| - 1])| <= j < |Tail(path)|
    ensures var last := path[|path| - 1];
      var t := |Tail(path[..|path| - 1])|;
      && last.pos + 1 <= |last.elements|
      && j - t < |EncodeAll(last.elements[last.pos + 1..])|
      && TailCut(path, j, sn) == Shift(CutElems(last.elements, last.pos + 1, j - t, sn), t)
  {
  }

  /** The arrays beneath the popped one suspend again: the popped one is
      pushed back on top of them. */
  lemma {:induction false} ResumePending(st: State, popped: State, buf: seq<byte>, path: seq<Level>)
    requires Suspends(st, buf, path) && |path| > 1
    requires ResumableFrames(st.arrayCache, st.arrayPos)
    requires popped == st.(arrayCache := st.arrayCache[..|path| - 1], arrayPos := st.arrayPos[..|path| - 1])
    requires ResumableFrames(popped.arrayCache, popped.arrayPos) && |popped.arrayCache| >= 1
    requires var inner := path[..|path| - 1];
      && PathOK(inner) && |buf| - st.offset < |Tail(inner)| && Partial(buf, st.offset, Tail(inner))
      && Resumes(popped, buf, inner, ParseArrayChunks(popped, buf))
    ensures Partial(buf, st.offset, Tail(path))
    ensures Resumes(st, buf, path, ParseArrayChunks(st, buf))
  {
    hide ParseArrayChunks, Tail, TailCut, Resumed, Push, FrameOf;
    var inner := path[..|path| - 1];
    var last := path[|path| - 1];
    var sn := st.stringNumbers;
    var c := TailCut(inner, |buf| - st.offset, sn);
    TailCutInner(path, |buf| - st.offset, sn);
    PartialOuter(path, buf, st.offset);
    var s := ParseArrayChunks(popped, buf);
    assert s == Step(Incomplete, Resumed(popped, buf, st.offset, c), []);
    assert st.arrayCache[|st.arrayCache| - 1] == FrameOf(last.elements, last.pos, sn);
    ChunksPush(st, popped, buf, s);
    PushResumed(st, popped, buf, path, st.offset, c);
  }

  /** Part of the tail beneath the popped array is part of the whole tail. */
  lemma PartialOuter(path: seq<Level>, buf: seq<byte>, o: int)
    requires PathOK(path) && |path| > 1
    requires Partial(buf, o, Tail(path[..|path| - 1]))
    ensures Partial(buf, o, Tail(path))
  {
    hide Encodable, Root, EncodeAll, PathOK, Partial;
    PathInner(path);
    var last := path[|path| - 1];
    var t := Tail(path[..|path| - 1]);
    var u := EncodeAll(last.elements[last.pos + 1..]);
    assert Tail(path) == t + u;
    PartialPrefix(buf, o, t, u);
  }

  /** The arrays beneath the outermost one form a path of their own, and the
      outermost stopped at one of its elements. */
  lemma PathInner(path: seq<Level>)
    requires PathOK(path) && |path| > 1
    ensures PathOK(path[..|path| - 1]) && path[|path| - 1].pos < |path[|path| - 1].elements|
  {
  }

  /** The arrays beneath the popped one complete with the value of the
      popped array's pending element `q`, and all of its remaining elements
      follow, `t` bytes on: the popped array completes. */
  lemma {:induction false} FilledDone(st: State, popped: State, st2: State, buf: seq<byte>, es: seq<Reply>, q: nat, t: nat)
    requires At(st, buf) && NoBulk(st) && |st.arrayCache| > 1 && ResumableFrames(st.arrayCache, st.arrayPos)
    requires popped == st.(arrayCache := st.arrayCache[..|st.arrayCache| - 1], arrayPos := st.arrayPos[..|st.arrayPos| - 1])
    requires ResumableFrames(popped.arrayCache, popped.arrayPos)
    requires q < |es| && Encodable(Array(es)) && st.arrayCache[|st.arrayCache| - 1] == FrameOf(es, q, st.stringNumbers)
    requires st.arrayPos[|st.arrayPos| - 1] == q
    requires st2 == st.(offset := st.offset + t, arrayCache := [], arrayPos := []) && st.offset + t <= |buf|
    requires ParseArrayChunks(popped, buf) == Step(Complete(Decoded(es[q], st.stringNumbers)), st2, [])
    requires Holds(buf, st.offset + t, EncodeAll(es[q + 1..]))
    ensures ParseArrayChunks(st, buf) ==
      Step(Complete(Decoded(Array(es), st.stringNumbers)),
           st.(offset := st.offset + t + |EncodeAll(es[q + 1..])|, arrayCache := [], arrayPos := []), [])
  {
    ChunksFill(st, popped, buf, Decoded(es[q], st.stringNumbers), st2);
    FrameStep(es, q, st.stringNumbers);
    var arr := st.arrayCache[|st.arrayCache| - 1][st.arrayPos[|st.arrayPos| - 1] := Filled(Decoded(es[q], st.stringNumbers))];
    RestFromHolds(st, st2, buf, es, q, t, arr, st.arrayPos[|st.arrayPos| - 1] + 1);
  }

  /** As `FilledDone`, with the remaining elements arrived only in part: the
      popped array is cut inside them. */
  lemma {:induction false} FilledCut(st: State, popped: State, st2: State, buf: seq<byte>, es: seq<Reply>, q: nat, t: nat, j: int)
    requires At(st, buf) && NoBulk(st) && |st.arrayCache| > 1 && ResumableFrames(st.arrayCache, st.arrayPos)
    requires popped == st.(arrayCache := st.arrayCache[..|st.arrayCache| - 1], arrayPos := st.arrayPos[..|st.arrayPos| - 1])
    requires ResumableFrames(popped.arrayCache, popped.arrayPos)
    requires q < |es| && Encodable(Array(es)) && st.arrayCache[|st.arrayCache| - 1] == FrameOf(es, q, st.stringNumbers)
    requires st.arrayPos[|st.arrayPos| - 1] == q
    requires st2 == st.(offset := st.offset + t, arrayCache := [], arrayPos := []) && st.offset + t <= |buf|
    requires ParseArrayChunks(popped, buf) == Step(Complete(Decoded(es[q], st.stringNumbers)), st2, [])
    requires Partial(buf, st.offset + t, EncodeAll(es[q + 1..])) && j == |buf| - (st.offset + t)
    ensures 0 <= j < |EncodeAll(es[q + 1..])|
    ensures ParseArrayChunks(st, buf) ==
      Step(Incomplete, Resumed(st, buf, st.offset, Shift(CutElems(es, q + 1, j, st.stringNumbers), t)), [])
  {
    ChunksFill(st, popped, buf, Decoded(es[q], st.stringNumbers), st2);
    FrameStep(es, q, st.stringNumbers);
    var arr := st.arrayCache[|st.arrayCache| - 1][st.arrayPos[|st.arrayPos| - 1] := Filled(Decoded(es[q], st.stringNumbers))];
    RestFromPartial(st, st2, buf, es, q, t, j, arr, st.arrayPos[|st.arrayPos| - 1] + 1);
    RestPartial(st, st2, buf, t, CutElems(es, q + 1, j, st.stringNumbers), ParseArrayChunks(st, buf));
  }

  /** The induction hypothesis of `Resume` when the inner tail has arrived. */
  lemma InnerDone(popped: State, buf: seq<byte>, inner: seq<Level>, r: Step, st2: State)
    requires PathOK(inner) && Resumes(popped, buf, inner, r) && Holds(buf, popped.offset, Tail(inner))
    requires st2 == popped.(offset := popped.offset + |Tail(inner)|, arrayCache := [], arrayPos := [])
    ensures r == Step(Complete(Decoded(Root(inner), popped.stringNumbers)), st2, [])
  {
  }

  /** The outermost level of a well-formed path of several levels. */
  lemma PathLast(path: seq<Level>)
    requires PathOK(path) && |path| > 1
    ensures var last := path[|path| - 1];
      && PathOK(path[..|path| - 1])
      && last.pos < |last.elements| && last.elements[last.pos] == Root(path[..|path| - 1])
  {
  }

  /** The popped array's remaining elements, parsed after the arrays
      beneath it completed, finish the resumption. */
  lemma RestFromDone(st: State, buf: seq<byte>, path: seq<Level>, t: nat, r: Step)
    requires PathOK(path) && |path| > 1 && Holds(buf, st.offset, Tail(path))
    requires var last := path[|path| - 1];
      && t == |Tail(path[..|path| - 1])| && last.pos < |last.elements|
      && r == Step(Complete(Decoded(Array(last.elements), st.stringNumbers)),
                   st.(offset := st.offset + t + |EncodeAll(last.elements[last.pos + 1..])|, arrayCache := [], arrayPos := []), [])
    ensures Resumes(st, buf, path, r)
  {
    TailSplit(path, buf, st.offset);
  }

  lemma RestFromCut(st: State, buf: seq<byte>, path: seq<Level>, t: nat, j: int, r: Step)
    requires PathOK(path) && |path| > 1 && Partial(buf, st.offset, Tail(path))
    requires var last := path[|path| - 1];
      && t == |Tail(path[..|path| - 1])| && last.pos < |last.elements| && st.offset + t <= |buf|
      && j == |buf| - (st.offset + t) && 0 <= j < |EncodeAll(last.elements[last.pos + 1..])|
      && r == Step(Incomplete, Resumed(st, buf, st.offset,
                     Shift(CutElems(last.elements, last.pos + 1, j, st.stringNumbers), t)), [])
    ensures Resumes(st, buf, path, r)
  {
    TailSplit(path, buf, st.offset);
    TailCutOuter(path, |buf| - st.offset, st.stringNumbers);
  }

  /** The popped array's elements after `q` all arrive: the array is done.
      `arr` and `i` are its frame and position once slot `q` is filled. */
  lemma {:induction false} RestFromHolds(st: State, st2: State, buf: seq<byte>, es: seq<Reply>, q: nat, t: nat, arr: seq<Slot>, i: int)
    requires Fresh(st2, buf) && q < |es| && Encodable(Array(es))
    requires st2 == st.(offset := st.offset + t, arrayCache := [], arrayPos := [])
    requires arr == FrameOf(es, q + 1, st.stringNumbers) && i == q + 1
    requires Holds(buf, st2.offset, EncodeAll(es[q + 1..]))
    ensures FilledUpTo(arr, i)
    ensures ParseElements(st2, buf, arr, i) ==
      Step(Complete(Decoded(Array(es), st.stringNumbers)),
           st.(offset := st.offset + t + |EncodeAll(es[q + 1..])|, arrayCache := [], arrayPos := []), [])
  {
    hide ParseElements, FrameOf, EncodeAll;
    ElementsFrom(st2, buf, es, q + 1);
  }

  /** Only part of the popped array's elements after `q` arrives: the array
      is cut inside them. */
  lemma {:induction false} RestFromPartial(st: State, st2: State, buf: seq<byte>, es: seq<Reply>, q: nat, t: nat, j: int, arr: seq<Slot>, i: int)
    requires Fresh(st2, buf) && q < |es| && Encodable(Array(es))
    requires st2 == st.(offset := st.offset + t, arrayCache := [], arrayPos := [])
    requires arr == FrameOf(es, q + 1, st.stringNumbers) && i == q + 1
    requires Partial(buf, st2.offset, EncodeAll(es[q + 1..])) && j == |buf| - st2.offset
    ensures 0 <= j < |EncodeAll(es[q + 1..])|
    ensures ParseElements(st2, buf, arr, i) ==
      Step(Incomplete, Resumed(st2, buf, st2.offset, CutElems(es, q + 1, j, st.stringNumbers)), [])
  {
    hide ParseElements, Resumed, CutElems;
    PartialElements(st2, buf, es, q + 1);
  }

  /** A state cut `t` bytes on from `st` is `st` cut `t` bytes further. */
  lemma RestPartial(st: State, st2: State, buf: seq<byte>, t: nat, c: Cut, r: Step)
    requires st2 == st.(offset := st.offset + t, arrayCache := [], arrayPos := [])
    requires r == Step(Incomplete, Resumed(st2, buf, st2.offset, c), [])
    ensures r == Step(Incomplete, Resumed(st, buf, st.offset, Shift(c, t)), [])
  {
  }
}
