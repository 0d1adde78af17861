/** Archive member names: `_chunk_member_name` and its reader `_collection_name_from_member`. */
module MemberNames {
  import opened Strings

  const PREFIX := "collections/"
  const SUFFIX := ".jsonl"

  predicate CollectionName(name: string) {
    name != "" && Free(name, '/')
  }

  function ChunkName(name: string, index: nat): string {
    PREFIX + name + "/" + Pad8(index) + SUFFIX
  }

  /** Name of the single member a schema-1 archive holds per collection. */
  function WholeName(name: string): string {
    PREFIX + name + SUFFIX
  }

  function RemoveSuffix(s: string): string {
    if EndsWith(s, SUFFIX) then s[..|s| - |SUFFIX|] else s
  }

  function CollectionOfMember(member: string): Option<string> {
    if !StartsWith(member, PREFIX) || !EndsWith(member, SUFFIX) then None
    else
      var parts := Split(member[|PREFIX|..], '/');
      if |parts| == 1 then
        var name := RemoveSuffix(parts[0]);
        if name == "" then None else Some(name)
      else if |parts| == 2 then
        var index := RemoveSuffix(parts[1]);
        if parts[0] != "" && |index| == 8 && IsDecimal(index) then Some(parts[0]) else None
      else None
  }

  lemma ChunkNameShape(name: string, index: nat)
    ensures var m := ChunkName(name, index);
            && StartsWith(m, PREFIX) && EndsWith(m, SUFFIX)
            && m[|PREFIX|..] == name + ['/'] + (Pad8(index) + SUFFIX)
  {
    var m := ChunkName(name, index);
    assert m == PREFIX + (name + ['/'] + (Pad8(index) + SUFFIX));
    assert m == (PREFIX + name + "/" + Pad8(index)) + SUFFIX;
  }

  lemma ChunkNameParts(name: string, index: nat)
    requires Free(name, '/')
    ensures Split(ChunkName(name, index)[|PREFIX|..], '/') == [name, Pad8(index) + SUFFIX]
  {
    ChunkNameShape(name, index);
    var tail := Pad8(index) + SUFFIX;
    assert Free(tail, '/');
    SplitAt(name, tail, '/');
    SplitFree(name, '/');
    SplitFree(tail, '/');
  }

  /** What the writer names, the reader recognises: every name below the eight-digit bound. */
  lemma ChunkNameIsRecognised(name: string, index: nat)
    requires CollectionName(name)
    ensures CollectionOfMember(ChunkName(name, index)) == (if index < 100_000_000 then Some(name) else None)
  {
    ChunkNameShape(name, index);
    ChunkNameParts(name, index);
    var tail := Pad8(index) + SUFFIX;
    assert tail[|tail| - |SUFFIX|..] == SUFFIX;
    assert RemoveSuffix(tail) == Pad8(index);
    if index < 100_000_000 {
      Pad8Width(index);
    } else {
      Pad8Overflows(index);
    }
  }

  lemma Pad8Overflows(n: nat)
    requires n >= 100_000_000
    ensures |Pad8(n)| > 8
  {
    ValueBound(Decimal(n));
    DecimalValue(n);
    assert Pow10(4) == 10_000;
    assert Pow10(8) == 100_000_000;
    if |Decimal(n)| <= 8 {
      Pow10Monotone(|Decimal(n)|, 8);
    }
  }

  lemma {:induction false} ValueBound(s: string)
    requires forall i :: 0 <= i < |s| ==> IsDigit(s[i])
    ensures Value(s) < Pow10(|s|)
  {
    if s != [] {
      ValueBound(s[..|s| - 1]);
    }
  }

  lemma {:induction false} Pow10Monotone(a: nat, b: nat)
    requires a <= b
    ensures Pow10(a) <= Pow10(b)
    decreases b
  {
    if a < b {
      Pow10Monotone(a, b - 1);
    }
  }

  lemma ChunkNameInjective(a: string, i: nat, b: string, j: nat)
    requires Free(a, '/') && Free(b, '/')
    requires ChunkName(a, i) == ChunkName(b, j)
    ensures a == b && i == j
  {
    ChunkNameParts(a, i);
    ChunkNameParts(b, j);
    var x, y := Pad8(i) + SUFFIX, Pad8(j) + SUFFIX;
    assert [a, x][0] == [b, y][0] && [a, x][1] == [b, y][1];
    assert x[..|x| - |SUFFIX|] == Pad8(i) && y[..|y| - |SUFFIX|] == Pad8(j);
    Pad8Injective(i, j);
  }

  lemma ChunkNameIsNotManifest(name: string, index: nat)
    ensures ChunkName(name, index) != "manifest.json"
  {
    ChunkNameShape(name, index);
    assert ChunkName(name, index)[0] == 'c';
  }

  lemma WholeNameInjective(a: string, b: string)
    requires WholeName(a) == WholeName(b)
    ensures a == b
  {
    var x, y := WholeName(a), WholeName(b);
    assert x[|PREFIX|..|x| - |SUFFIX|] == a;
    assert y[|PREFIX|..|y| - |SUFFIX|] == b;
  }
}
