/** Host names of the blacklist (`cidr.py`): how a domain pattern is normalised and what it matches. */
module Hostnames {
  import opened Strings
  import opened PythonText

  predicate LowerAlnum(c: char) {
    'a' <= c <= 'z' || '0' <= c <= '9'
  }

  /** `[a-z0-9](?:[a-z0-9-]{0,61}[a-z0-9])?` */
  predicate HostLabel(s: string) {
    && 1 <= |s| <= 63
    && LowerAlnum(s[0]) && LowerAlnum(s[|s| - 1])
    && forall i :: 0 <= i < |s| ==> LowerAlnum(s[i]) || s[i] == '-'
  }

  predicate HexDigit(c: char) {
    '0' <= c <= '9' || 'a' <= c <= 'f'
  }

  /** `0x[0-9a-f]+` or digits: a label some resolvers read as part of an address. */
  predicate NumericLabel(s: string) {
    || IsDecimal(s)
    || (|s| >= 3 && s[0] == '0' && s[1] == 'x' && forall i :: 2 <= i < |s| ==> HexDigit(s[i]))
  }

  function WithoutDot(s: string): string {
    if s != [] && s[|s| - 1] == '.' then s[..|s| - 1] else s
  }

  /** A name as it is stored in a rule: lower-case labels, no trailing dot, not an address. */
  predicate Canonical(isAddress: string -> bool, s: string) {
    var labels := Split(s, '.');
    && s != [] && |s| <= 253 && !isAddress(s)
    && (forall i :: 0 <= i < |labels| ==> HostLabel(labels[i]))
    && exists i :: 0 <= i < |labels| && !NumericLabel(labels[i])
  }

  /** `normalize_source_domain`, `None` when it raises. */
  function NormalizeDomain(isAddress: string -> bool, value: string): Option<string> {
    if value == [] || value != Strip(value) || !IsAscii(value) then None
    else
      var pattern := WithoutDot(Lower(value));
      if Canonical(isAddress, pattern) then Some(pattern) else None
  }

  // --------------------------------------------------------------------------- matching

  /** `host == pattern or host.endswith("." + pattern)`. */
  predicate DomainMatches(host: string, pattern: string) {
    host == pattern || EndsWith(host, "." + pattern)
  }

  predicate LabelSuffix(pattern: seq<string>, host: seq<string>) {
    |pattern| <= |host| && host[|host| - |pattern|..] == pattern
  }

  /** The string test is the label test, for all strings: a pattern never matches inside a label. */
  lemma DomainMatchesIsLabelSuffix(host: string, pattern: string)
    ensures DomainMatches(host, pattern) <==> LabelSuffix(Split(pattern, '.'), Split(host, '.'))
  {
    var hs, ps := Split(host, '.'), Split(pattern, '.');
    if host != pattern && EndsWith(host, "." + pattern) {
      var head := host[..|host| - |pattern| - 1];
      assert host == head + ['.'] + pattern;
      SplitAt(head, pattern, '.');
      assert hs[|hs| - |ps|..] == ps;
    }
    if LabelSuffix(ps, hs) {
      SuffixOfLabels(host, pattern);
    }
  }

  lemma EndsInTail(host: string, head: string, tail: string)
    requires host == head + ['.'] + tail
    ensures EndsWith(host, "." + tail)
  {
    assert host == head + ("." + tail);
  }

  lemma JoinedSuffix(labels: seq<string>, n: nat, tail: seq<string>)
    requires 0 < n < |labels| && tail == labels[n..]
    ensures Join(labels, '.') == Join(labels[..n], '.') + ['.'] + Join(tail, '.')
  {
    assert labels == labels[..n] + labels[n..];
    JoinConcat(labels[..n], tail, '.');
  }

  lemma SuffixOfLabels(host: string, pattern: string)
    requires LabelSuffix(Split(pattern, '.'), Split(host, '.'))
    ensures DomainMatches(host, pattern)
  {
    var hs, ps := Split(host, '.'), Split(pattern, '.');
    JoinSplit(host, '.');
    JoinSplit(pattern, '.');
    var n := |hs| - |ps|;
    if n == 0 {
      assert hs[0..] == hs;
    } else {
      JoinedSuffix(hs, n, ps);
      EndsInTail(host, Join(hs[..n], '.'), pattern);
    }
  }

  // ----------------------------------------------------------------------- normal forms

  lemma {:induction false} LabelsCover(s: string, P: char -> bool)
    requires forall i, k :: 0 <= i < |Split(s, '.')| && 0 <= k < |Split(s, '.')[i]| ==> P(Split(s, '.')[i][k])
    ensures forall k :: 0 <= k < |s| ==> s[k] == '.' || P(s[k])
    decreases |s|
  {
    if s != [] {
      var rest, parts := Split(s[1..], '.'), Split(s, '.');
      forall i, k | 0 <= i < |rest| && 0 <= k < |rest[i]| ensures P(rest[i][k]) {
        if s[0] == '.' {
          assert parts[i + 1] == rest[i];
          assert parts[i + 1][k] == rest[i][k];
        } else if i == 0 {
          assert parts[0][k + 1] == rest[0][k];
        } else {
          assert parts[i] == rest[i];
          assert parts[i][k] == rest[i][k];
        }
      }
      LabelsCover(s[1..], P);
      if s[0] != '.' {
        assert parts[0][0] == s[0];
      }
      forall k | 0 <= k < |s| ensures s[k] == '.' || P(s[k]) {
        if k > 0 {
          assert s[k] == s[1..][k - 1];
        }
      }
    }
  }

  predicate HostChar(c: char) {
    LowerAlnum(c) || c == '-'
  }

  lemma CanonicalChars(isAddress: string -> bool, s: string)
    requires Canonical(isAddress, s)
    ensures forall k :: 0 <= k < |s| ==> s[k] == '.' || HostChar(s[k])
  {
    LabelsCover(s, HostChar);
  }

  lemma {:induction false} LastLabel(s: string)
    requires s != [] && s[|s| - 1] == '.'
    ensures Split(s, '.')[|Split(s, '.')| - 1] == []
  {
    var head := s[..|s| - 1];
    assert s == head + ['.'] + [];
    SplitAt(head, [], '.');
  }

  /** A stored name is already in normal form: normalising it again gives it back. */
  lemma NormalizedIsFixed(isAddress: string -> bool, value: string)
    ensures var n := NormalizeDomain(isAddress, value);
            n.Some? ==> Canonical(isAddress, n.value) && NormalizeDomain(isAddress, n.value) == n
  {
    var n := NormalizeDomain(isAddress, value);
    if n.Some? {
      var s := n.value;
      CanonicalChars(isAddress, s);
      assert Lower(s) == s;
      assert s[|s| - 1] != '.' by {
        if s[|s| - 1] == '.' {
          LastLabel(s);
        }
      }
      StripTrims(s);
    }
  }

  /** Case and one trailing dot do not matter. */
  lemma CaseAndDotDoNotMatter(isAddress: string -> bool, value: string)
    requires value != [] && value[|value| - 1] != '.'
    ensures NormalizeDomain(isAddress, Lower(value)) == NormalizeDomain(isAddress, value)
    ensures NormalizeDomain(isAddress, value + ".") == NormalizeDomain(isAddress, value)
  {
    StripTrims(value);
    StripTrims(Lower(value));
    StripTrims(value + ".");
    LowerTwice(value);
    var dotted := value + ".";
    assert WithoutDot(Lower(dotted)) == Lower(value) == WithoutDot(Lower(value));
    assert IsAscii(dotted) <==> IsAscii(value) by {
      assert forall i :: 0 <= i < |value| ==> dotted[i] == value[i];
    }
    if Canonical(isAddress, Lower(value)) {
      CanonicalChars(isAddress, Lower(value));
      var last := Lower(value)[|value| - 1];
      assert last == '.' || HostChar(last);
      assert !IsSpace(value[|value| - 1]);
    }
  }
}
