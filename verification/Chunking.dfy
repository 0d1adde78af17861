/** Greedy, order-preserving chunking of encoded lines (`_write_collection_chunks`),
    separated from what the chunks are later written to. */
module Chunking {

  newtype Byte = x: int | 0 <= x < 256

  type Bytes = seq<Byte>

  function Concat(lines: seq<Bytes>): Bytes {
    if lines == [] then [] else lines[0] + Concat(lines[1..])
  }

  function Flatten<T>(chunks: seq<seq<T>>): seq<T> {
    if chunks == [] then [] else chunks[0] + Flatten(chunks[1..])
  }

  function Size(lines: seq<Bytes>): nat {
    |Concat(lines)|
  }

  lemma {:induction false} ConcatAppend(a: seq<Bytes>, b: seq<Bytes>)
    ensures Concat(a + b) == Concat(a) + Concat(b)
  {
    if a == [] {
      assert a + b == b;
    } else {
      assert (a + b)[1..] == a[1..] + b;
      ConcatAppend(a[1..], b);
    }
  }

  lemma ConcatSnoc(a: seq<Bytes>, line: Bytes)
    ensures Concat(a + [line]) == Concat(a) + line
  {
    ConcatAppend(a, [line]);
    assert Concat([line]) == line + Concat([]);
  }

  lemma {:induction false} FlattenAppend<T>(a: seq<seq<T>>, b: seq<seq<T>>)
    ensures Flatten(a + b) == Flatten(a) + Flatten(b)
  {
    if a == [] {
      assert a + b == b;
    } else {
      assert (a + b)[1..] == a[1..] + b;
      FlattenAppend(a[1..], b);
    }
  }

  lemma FlattenSnoc<T>(a: seq<seq<T>>, c: seq<T>)
    ensures Flatten(a + [c]) == Flatten(a) + c
  {
    FlattenAppend(a, [c]);
    assert Flatten([c]) == c + Flatten([]);
  }

  lemma SizeOfPart(a: seq<Bytes>, i: nat, j: nat)
    requires i <= j <= |a|
    ensures Size(a[i..j]) <= Size(a)
  {
    assert a == a[..i] + a[i..j] + a[j..];
    ConcatAppend(a[..i] + a[i..j], a[j..]);
    ConcatAppend(a[..i], a[i..j]);
  }

  // ------------------------------------------------------- what the writer does

  /** The chunks after the loop has seen `lines`: a line joins the open chunk when it
      still fits and otherwise starts the next chunk. */
  function Greedy(lines: seq<Bytes>, limit: nat): seq<seq<Bytes>> {
    if lines == [] then []
    else
      var chunks := Greedy(lines[..|lines| - 1], limit);
      var line := lines[|lines| - 1];
      if chunks != [] && Size(chunks[|chunks| - 1]) + |line| <= limit
      then chunks[..|chunks| - 1] + [chunks[|chunks| - 1] + [line]]
      else chunks + [[line]]
  }

  /** An empty collection still produces one, empty, member. */
  function Chunks(lines: seq<Bytes>, limit: nat): (chunks: seq<seq<Bytes>>)
    ensures lines == [] ==> chunks == [[]]
  {
    if lines == [] then [[]] else Greedy(lines, limit)
  }

  predicate LinesFit(lines: seq<Bytes>, limit: nat) {
    forall i :: 0 <= i < |lines| ==> |lines[i]| <= limit
  }

  // -------------------------------------------------- what the result must satisfy

  predicate Fits(chunks: seq<seq<Bytes>>, limit: nat) {
    forall i :: 0 <= i < |chunks| ==> Size(chunks[i]) <= limit
  }

  predicate NoneEmpty(chunks: seq<seq<Bytes>>) {
    forall i :: 0 <= i < |chunks| ==> chunks[i] != []
  }

  /** No chunk could have taken the first line of its successor. */
  predicate Saturated(chunks: seq<seq<Bytes>>, limit: nat)
    requires NoneEmpty(chunks)
  {
    forall i :: 0 <= i < |chunks| - 1 ==> Size(chunks[i]) + |chunks[i + 1][0]| > limit
  }

  predicate GreedySplit(chunks: seq<seq<Bytes>>, lines: seq<Bytes>, limit: nat) {
    && Flatten(chunks) == lines
    && NoneEmpty(chunks)
    && Fits(chunks, limit)
    && Saturated(chunks, limit)
  }

  lemma SaturatedTail(chunks: seq<seq<Bytes>>, limit: nat)
    requires chunks != [] && NoneEmpty(chunks) && Saturated(chunks, limit)
    ensures NoneEmpty(chunks[1..]) && Saturated(chunks[1..], limit)
  {
    var rest := chunks[1..];
    forall i | 0 <= i < |rest| - 1
      ensures Size(rest[i]) + |rest[i + 1][0]| > limit
    {
      var j := i + 1;
      assert Size(chunks[j]) + |chunks[j + 1][0]| > limit;
    }
  }

  /** Growing the last chunk keeps a greedy split greedy. */
  lemma GrowLast(chunks: seq<seq<Bytes>>, lines: seq<Bytes>, line: Bytes, limit: nat)
    requires GreedySplit(chunks, lines, limit) && chunks != []
    requires Size(chunks[|chunks| - 1]) + |line| <= limit
    ensures GreedySplit(chunks[..|chunks| - 1] + [chunks[|chunks| - 1] + [line]], lines + [line], limit)
  {
    var k := |chunks| - 1;
    var grown := chunks[..k] + [chunks[k] + [line]];
    ConcatSnoc(chunks[k], line);
    assert chunks == chunks[..k] + [chunks[k]];
    FlattenSnoc(chunks[..k], chunks[k]);
    FlattenSnoc(chunks[..k], chunks[k] + [line]);
    forall i | 0 <= i < |grown| - 1
      ensures Size(grown[i]) + |grown[i + 1][0]| > limit
    {
      assert Size(chunks[i]) + |chunks[i + 1][0]| > limit;
      assert grown[i + 1][0] == chunks[i + 1][0];
    }
  }

  lemma OpenNext(chunks: seq<seq<Bytes>>, lines: seq<Bytes>, line: Bytes, limit: nat)
    requires GreedySplit(chunks, lines, limit) && |line| <= limit
    requires chunks != [] ==> Size(chunks[|chunks| - 1]) + |line| > limit
    ensures GreedySplit(chunks + [[line]], lines + [line], limit)
  {
    ConcatSnoc([], line);
    assert [] + [line] == [line];
    FlattenSnoc(chunks, [line]);
    var grown := chunks + [[line]];
    forall i | 0 <= i < |grown| - 1
      ensures Size(grown[i]) + |grown[i + 1][0]| > limit
    {
      if i + 1 < |chunks| {
        assert Size(chunks[i]) + |chunks[i + 1][0]| > limit;
      }
    }
  }

  lemma {:induction false} GreedyIsGreedySplit(lines: seq<Bytes>, limit: nat)
    requires LinesFit(lines, limit)
    ensures GreedySplit(Greedy(lines, limit), lines, limit)
  {
    if lines != [] {
      var n := |lines| - 1;
      var before := Greedy(lines[..n], limit);
      GreedyIsGreedySplit(lines[..n], limit);
      assert lines == lines[..n] + [lines[n]];
      if before != [] && Size(before[|before| - 1]) + |lines[n]| <= limit {
        GrowLast(before, lines[..n], lines[n], limit);
      } else {
        OpenNext(before, lines[..n], lines[n], limit);
      }
    }
  }

  /** Any two neighbouring members together exceed the limit. */
  lemma NeighboursExceedLimit(chunks: seq<seq<Bytes>>, limit: nat, i: nat)
    requires NoneEmpty(chunks) && Saturated(chunks, limit)
    requires i + 1 < |chunks|
    ensures Size(chunks[i]) + Size(chunks[i + 1]) > limit
  {
    SizeOfPart(chunks[i + 1], 0, 1);
    assert chunks[i + 1][0..1] == [chunks[i + 1][0]];
    ConcatSnoc([], chunks[i + 1][0]);
    assert [] + [chunks[i + 1][0]] == [chunks[i + 1][0]];
  }

  /** Greedy stays ahead: if the saturated chunks cover a tail of what `other` covers,
      they need no more chunks than `other` does. */
  lemma {:induction false} StaysAhead(chunks: seq<seq<Bytes>>, other: seq<seq<Bytes>>, skip: nat, limit: nat)
    requires NoneEmpty(chunks) && Saturated(chunks, limit) && Fits(other, limit)
    requires skip <= |Flatten(other)| && Flatten(chunks) == Flatten(other)[skip..]
    ensures |chunks| <= |other|
    decreases |other|
  {
    if |chunks| >= 1 && other != [] {
      var head := other[0];
      var all := Flatten(other);
      assert all == head + Flatten(other[1..]);
      if |head| <= skip {
        assert Flatten(other[1..])[skip - |head|..] == all[skip..];
        StaysAhead(chunks, other[1..], skip - |head|, limit);
      } else if |chunks| >= 2 {
        FirstTakesAsMuch(chunks, head, Flatten(other[1..]), skip, limit);
        assert Flatten(chunks) == chunks[0] + Flatten(chunks[1..]);
        var skip' := skip + |chunks[0]| - |head|;
        assert Flatten(chunks[1..]) == all[skip + |chunks[0]|..] == Flatten(other[1..])[skip'..];
        SaturatedTail(chunks, limit);
        StaysAhead(chunks[1..], other[1..], skip', limit);
      }
    }
  }

  lemma FirstTakesAsMuch(chunks: seq<seq<Bytes>>, head: seq<Bytes>, tail: seq<Bytes>, skip: nat, limit: nat)
    requires |chunks| >= 2 && NoneEmpty(chunks) && Saturated(chunks, limit)
    requires Size(head) <= limit && skip < |head|
    requires Flatten(chunks) == (head + tail)[skip..]
    ensures skip + |chunks[0]| >= |head|
  {
    var first, next := chunks[0], chunks[1][0];
    FirstAndNext(chunks);
    if skip + |first| < |head| {
      var taken := head[skip..skip + |first| + 1];
      assert taken == (head + tail)[skip..][..|first| + 1];
      ConcatSnoc(first, next);
      SizeOfPart(head, skip, skip + |first| + 1);
      assert false;
    }
  }

  lemma FirstAndNext(chunks: seq<seq<Bytes>>)
    requires |chunks| >= 2 && NoneEmpty(chunks)
    ensures |Flatten(chunks)| > |chunks[0]|
    ensures Flatten(chunks)[..|chunks[0]| + 1] == chunks[0] + [chunks[1][0]]
  {
    assert Flatten(chunks) == chunks[0] + (chunks[1] + Flatten(chunks[1..][1..]));
  }

  /** No order-preserving split within the limit uses fewer members than the writer. */
  lemma GreedyIsOptimal(lines: seq<Bytes>, other: seq<seq<Bytes>>, limit: nat)
    requires LinesFit(lines, limit)
    requires Flatten(other) == lines && Fits(other, limit) && other != []
    ensures |Chunks(lines, limit)| <= |other|
  {
    if lines != [] {
      GreedyIsGreedySplit(lines, limit);
      assert Flatten(other)[0..] == lines;
      StaysAhead(Greedy(lines, limit), other, 0, limit);
    }
  }

  /** Being saturated pins the split down completely, so `GreedySplit` is a full
      specification of the writer and not only a consequence of it. */
  lemma {:induction false} GreedySplitIsUnique(a: seq<seq<Bytes>>, b: seq<seq<Bytes>>, lines: seq<Bytes>, limit: nat)
    requires GreedySplit(a, lines, limit) && GreedySplit(b, lines, limit)
    ensures a == b
    decreases |a|
  {
    if a == [] || b == [] {
      assert lines == [];
      assert |Flatten(a)| == 0 && |Flatten(b)| == 0;
    } else {
      assert lines == a[0] + Flatten(a[1..]) == b[0] + Flatten(b[1..]);
      FirstIsLongest(a, b, lines, limit);
      FirstIsLongest(b, a, lines, limit);
      assert a[0] == lines[..|a[0]|] == b[0];
      assert Flatten(a[1..]) == lines[|a[0]|..] == Flatten(b[1..]);
      SaturatedTail(a, limit);
      SaturatedTail(b, limit);
      GreedySplitIsUnique(a[1..], b[1..], lines[|a[0]|..], limit);
    }
  }

  lemma FirstIsLongest(a: seq<seq<Bytes>>, b: seq<seq<Bytes>>, lines: seq<Bytes>, limit: nat)
    requires a != [] && b != []
    requires GreedySplit(a, lines, limit) && GreedySplit(b, lines, limit)
    ensures |b[0]| <= |a[0]|
  {
    assert lines == b[0] + Flatten(b[1..]);
    if |a| >= 2 {
      assert (b[0] + Flatten(b[1..]))[0..] == lines;
      FirstTakesAsMuch(a, b[0], Flatten(b[1..]), 0, limit);
    } else {
      assert Flatten(a) == a[0] + Flatten([]);
    }
  }

  // ------------------------------------------------------------- counting members

  /** Half-full on average: n members carry more than (n-1)/2 limits of payload. */
  lemma {:induction false} MemberCountBound(chunks: seq<seq<Bytes>>, limit: nat)
    requires NoneEmpty(chunks) && Saturated(chunks, limit) && chunks != []
    ensures limit * (|chunks| - 1) <= 2 * Size(Flatten(chunks)) - Size(chunks[0])
    decreases |chunks|
  {
    var rest := chunks[1..];
    assert Flatten(chunks) == chunks[0] + Flatten(rest);
    ConcatAppend(chunks[0], Flatten(rest));
    if rest != [] {
      NeighboursExceedLimit(chunks, limit, 0);
      SaturatedTail(chunks, limit);
      MemberCountBound(rest, limit);
      DistributeOne(limit, |rest|);
    }
  }

  lemma DistributeOne(x: nat, n: nat)
    requires n >= 1
    ensures x * n == x * (n - 1) + x
  {
  }
}
