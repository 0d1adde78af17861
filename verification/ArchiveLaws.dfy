/** Which member names an archive may hold, and which rows any content has (`backups.py`). */
module ArchiveLaws {
  import opened Strings
  import opened Chunking
  import opened MemberNames
  import opened Archive

  // -------------------------------------------------------------------------------- names

  /** The two shapes of a member of collection `c`: whole, or a part under eight digits. */
  ghost predicate NamesMember(c: string, member: string) {
    && CollectionName(c)
    && (|| member == "collections/" + c + ".jsonl"
        || exists digits ::
             |digits| == 8 && IsDecimal(digits) && member == "collections/" + c + "/" + digits + ".jsonl")
  }

  lemma WholeIsNamed(c: string)
    requires CollectionName(c)
    ensures CollectionOfMember("collections/" + c + ".jsonl") == Some(c)
  {
    var member := "collections/" + c + ".jsonl";
    var rest := c + ".jsonl";
    assert member[|PREFIX|..] == rest && member[|member| - |SUFFIX|..] == SUFFIX;
    SplitFree(rest, '/');
    assert rest[|rest| - |SUFFIX|..] == SUFFIX && rest[..|rest| - |SUFFIX|] == c;
  }

  lemma PartIsNamed(c: string, digits: string)
    requires CollectionName(c) && |digits| == 8 && IsDecimal(digits)
    ensures CollectionOfMember("collections/" + c + "/" + digits + ".jsonl") == Some(c)
  {
    var member, tail := "collections/" + c + "/" + digits + ".jsonl", digits + ".jsonl";
    assert member == PREFIX + (c + ['/'] + tail);
    assert member[|PREFIX|..] == c + ['/'] + tail && member[|member| - |SUFFIX|..] == SUFFIX;
    assert Free(tail, '/');
    SplitAt(c, tail, '/');
    SplitFree(c, '/');
    SplitFree(tail, '/');
    assert tail[|tail| - |SUFFIX|..] == SUFFIX && tail[..|tail| - |SUFFIX|] == digits;
  }

  /** What stands between the prefix and the suffix. */
  lemma Between(member: string)
    requires StartsWith(member, PREFIX) && EndsWith(member, SUFFIX)
    ensures |member| >= |PREFIX| + |SUFFIX| && EndsWith(member[|PREFIX|..], SUFFIX)
    ensures member == PREFIX + member[|PREFIX|..]
  {
    assert member[|PREFIX| - 1] == '/';
    assert Free(SUFFIX, '/');
  }

  lemma {:induction false} PartsAreFree(s: string, sep: char)
    ensures forall i :: 0 <= i < |Split(s, sep)| ==> Free(Split(s, sep)[i], sep)
  {
    if s != [] {
      PartsAreFree(s[1..], sep);
    }
  }

  lemma NamedIsWhole(member: string, c: string)
    requires StartsWith(member, PREFIX) && EndsWith(member, SUFFIX) && |Split(member[|PREFIX|..], '/')| == 1
    requires CollectionOfMember(member) == Some(c)
    ensures NamesMember(c, member)
  {
    var rest := member[|PREFIX|..];
    Between(member);
    JoinSplit(rest, '/');
    PartsAreFree(rest, '/');
    assert Split(rest, '/')[0] == rest;
    assert rest == c + SUFFIX;
    assert member == PREFIX + (c + SUFFIX) == "collections/" + c + ".jsonl";
  }

  lemma NamedIsPart(member: string, c: string)
    requires StartsWith(member, PREFIX) && EndsWith(member, SUFFIX) && |Split(member[|PREFIX|..], '/')| == 2
    requires CollectionOfMember(member) == Some(c)
    ensures NamesMember(c, member)
  {
    var rest := member[|PREFIX|..];
    var tail := Split(rest, '/')[1];
    Between(member);
    JoinSplit(rest, '/');
    PartsAreFree(rest, '/');
    assert rest == c + ['/'] + tail;
    TailEnds(c, tail, SUFFIX);
    PartShape(member, c, tail);
  }

  lemma TailEnds(c: string, tail: string, suffix: string)
    requires Free(suffix, '/') && EndsWith(c + ['/'] + tail, suffix)
    ensures EndsWith(tail, suffix)
  {
    var rest := c + ['/'] + tail;
    var start := |rest| - |suffix|;
    assert rest[|c|] == '/';
    assert forall i :: start <= i < |rest| ==> rest[i] == suffix[i - start];
    assert rest[start..] == tail[start - |c| - 1..];
  }

  lemma PartShape(member: string, c: string, tail: string)
    requires member == PREFIX + (c + ['/'] + tail) && EndsWith(tail, SUFFIX)
    ensures member == "collections/" + c + "/" + RemoveSuffix(tail) + ".jsonl"
  {
    assert tail == RemoveSuffix(tail) + SUFFIX;
    assert "collections/" + c + "/" + RemoveSuffix(tail) + ".jsonl"
        == PREFIX + (c + ['/'] + (RemoveSuffix(tail) + SUFFIX));
  }

  /** A member belongs to a collection exactly when it has one of the two shapes. */
  lemma NamesExactly(member: string, c: string)
    ensures CollectionOfMember(member) == Some(c) <==> NamesMember(c, member)
  {
    if CollectionOfMember(member) == Some(c) {
      if |Split(member[|PREFIX|..], '/')| == 1 {
        NamedIsWhole(member, c);
      } else {
        NamedIsPart(member, c);
      }
    }
    if NamesMember(c, member) {
      if member == "collections/" + c + ".jsonl" {
        WholeIsNamed(c);
      } else {
        var digits :| |digits| == 8 && IsDecimal(digits) && member == "collections/" + c + "/" + digits + ".jsonl";
        PartIsNamed(c, digits);
      }
    }
  }

  // --------------------------------------------------------------------------------- rows

  /** LF, CR LF or CR; the last row may also end the content. */
  predicate Ends(ending: Bytes, last: bool) {
    ending == [LF] || ending == [CR, LF] || ending == [CR] || (last && ending == [])
  }

  predicate AllEnd(endings: seq<Bytes>) {
    forall i :: 0 <= i < |endings| ==> Ends(endings[i], i == |endings| - 1)
  }

  function Glued(rows: seq<Bytes>, endings: seq<Bytes>): Bytes
    requires |rows| == |endings|
  {
    if rows == [] then [] else rows[0] + endings[0] + Glued(rows[1..], endings[1..])
  }

  lemma {:induction false} EndOf(row: Bytes, rest: Bytes)
    requires forall i :: 0 <= i < |row| ==> row[i] != LF && row[i] != CR
    requires rest == [] || rest[0] == LF || rest[0] == CR
    ensures LineEnd(row + rest) == |row|
  {
    if row != [] {
      assert (row + rest)[1..] == row[1..] + rest;
      EndOf(row[1..], rest);
    } else {
      assert row + rest == rest;
    }
  }

  lemma OneRow(row: Bytes, ending: Bytes, rest: Bytes)
    requires Clean(row) && Ends(ending, rest == []) && (rest != [] ==> rest[0] != LF)
    ensures Rows(row + ending + rest) == [row] + Rows(rest)
  {
    var content := row + (ending + rest);
    assert row + ending + rest == content;
    EndOf(row, ending + rest);
    assert content[..|row|] == row;
    if ending == [] {
      assert content == row && SplitLines(content) == [row];
      assert [row][1..] == [];
    } else {
      assert content[|row|] == ending[0];
      assert content[|row| + |ending|..] == rest;
      assert |ending| == 1 && rest != [] ==> content[|row| + 1] == rest[0];
      assert |ending| == 2 ==> content[|row| + 1] == LF;
      assert SplitLines(content) == [row] + SplitLines(rest);
      assert ([row] + SplitLines(rest))[1..] == SplitLines(rest);
    }
  }

  /** Whatever ends the lines, the rows are what stands between: for archives written elsewhere too. */
  lemma {:induction false} RowsOfGlued(rows: seq<Bytes>, endings: seq<Bytes>)
    requires |rows| == |endings| && AllEnd(endings) && forall i :: 0 <= i < |rows| ==> Clean(rows[i])
    ensures Rows(Glued(rows, endings)) == rows
  {
    if rows != [] {
      RowsOfGlued(rows[1..], endings[1..]);
      var rest := Glued(rows[1..], endings[1..]);
      assert |rows| > 1 ==> rest[0] == rows[1][0];
      OneRow(rows[0], endings[0], rest);
    }
  }
}
