/**
 The JavaScript string operations the core relies on: `split` on one
 character, `join`, `trim` and `replace` of the first occurrence of a
 literal pattern.
 */
module Strings {

  /** Position of the first `c` in `s`. */
  function IndexOf(s: string, c: char): (i: nat)
    requires c in s
    ensures i < |s| && s[i] == c
    ensures forall k :: 0 <= k < i ==> s[k] != c
    decreases |s|
  {
    if s[0] == c then 0
    else
      assert c in s[1..] by {
        var k :| 0 <= k < |s| && s[k] == c;
        assert s[1..][k - 1] == c;
      }
      IndexOf(s[1..], c) + 1
  }

  /**
   `s.split(sep)` for a one-character separator: the pieces between
   separators, including empty ones; the empty string splits into [""].
   */
  function Split(s: string, sep: char): (parts: seq<string>)
    ensures |parts| >= 1
    ensures forall i :: 0 <= i < |parts| ==> sep !in parts[i]
    decreases |s|
  {
    if sep !in s then [s]
    else
      var i := IndexOf(s, sep);
      [s[..i]] + Split(s[i + 1..], sep)
  }

  /** Every character of every piece comes from the split string. */
  lemma {:induction false} SplitChars(s: string, sep: char)
    ensures forall i, c :: 0 <= i < |Split(s, sep)| && c in Split(s, sep)[i] ==> c in s
    decreases |s|
  {
    if sep in s {
      var i := IndexOf(s, sep);
      SplitChars(s[i + 1..], sep);
      assert forall c :: c in s[i + 1..] ==> c in s;
      assert forall c :: c in s[..i] ==> c in s;
      assert Split(s, sep) == [s[..i]] + Split(s[i + 1..], sep);
    }
  }

  /** `parts.join(sep)`. */
  function Join(parts: seq<string>, sep: string): string
    decreases |parts|
  {
    if |parts| == 0 then ""
    else if |parts| == 1 then parts[0]
    else parts[0] + sep + Join(parts[1..], sep)
  }

  /** Joining the pieces of a split with the same separator gives back the string. */
  lemma {:induction false} JoinSplit(s: string, sep: char)
    ensures Join(Split(s, sep), [sep]) == s
    decreases |s|
  {
    if sep in s {
      var i := IndexOf(s, sep);
      var rest := Split(s[i + 1..], sep);
      JoinSplit(s[i + 1..], sep);
      var parts := [s[..i]] + rest;
      assert Split(s, sep) == parts;
      assert parts[0] == s[..i] && parts[1..] == rest && |parts| > 1;
      assert Join(parts, [sep]) == s[..i] + [sep] + Join(rest, [sep]);
      assert s == s[..i] + [sep] + s[i + 1..];
    }
  }

  /** Splitting never merges across a separator: `a + sep + b` splits into the pieces of `a` then of `b`. */
  lemma {:induction false} SplitConcat(a: string, b: string, sep: char)
    ensures Split(a + [sep] + b, sep) == Split(a, sep) + Split(b, sep)
    decreases |a|
  {
    var s := a + [sep] + b;
    assert s[|a|] == sep;
    if sep in a {
      var i := IndexOf(a, sep);
      assert s[i] == sep;
      assert IndexOf(s, sep) == i;
      assert s[..i] == a[..i];
      assert s[i + 1..] == a[i + 1..] + [sep] + b;
      SplitConcat(a[i + 1..], b, sep);
    } else {
      assert forall k :: 0 <= k < |a| ==> s[k] == a[k] && a[k] != sep;
      var j := IndexOf(s, sep);
      assert j == |a|;
      assert s[..j] == a;
      assert s[j + 1..] == b;
    }
  }

  /**
   The characters `String.prototype.trim` removes: ECMAScript WhiteSpace
   (tab, vertical tab, form feed, space, no-break space, byte order mark
   and the Unicode space separators) and LineTerminator.
   */
  predicate IsWhitespace(c: char) {
    || c == '\t' || c == '\U{000B}' || c == '\U{000C}' || c == ' '
    || c == '\U{00A0}' || c == '\U{FEFF}'
    || c == '\n' || c == '\r' || c == '\U{2028}' || c == '\U{2029}'
    || c == '\U{1680}' || ('\U{2000}' <= c <= '\U{200A}')
    || c == '\U{202F}' || c == '\U{205F}' || c == '\U{3000}'
  }

  /**
   `r` is the part of `s` starting at `i`, and everything of `s` before and
   after it is whitespace.
   */
  predicate TrimmedFrom(r: string, s: string, i: nat) {
    && i + |r| <= |s| && s[i..i + |r|] == r
    && (forall k :: 0 <= k < i ==> IsWhitespace(s[k]))
    && (forall k :: i + |r| <= k < |s| ==> IsWhitespace(s[k]))
  }

  /** Neither end of `s` is whitespace. */
  predicate Trimmed(s: string) {
    |s| == 0 || (!IsWhitespace(s[0]) && !IsWhitespace(s[|s| - 1]))
  }

  /** `s` with leading whitespace removed. */
  function TrimStart(s: string): (r: string)
    ensures |r| <= |s| && r == s[|s| - |r|..]
    ensures |r| > 0 ==> !IsWhitespace(r[0])
    ensures forall i :: 0 <= i < |s| - |r| ==> IsWhitespace(s[i])
    decreases |s|
  {
    if |s| > 0 && IsWhitespace(s[0]) then TrimStart(s[1..]) else s
  }

  /** `s` with trailing whitespace removed. */
  function TrimEnd(s: string): (r: string)
    ensures |r| <= |s| && r == s[..|r|]
    ensures |r| > 0 ==> !IsWhitespace(r[|r| - 1])
    ensures forall i :: |r| <= i < |s| ==> IsWhitespace(s[i])
    decreases |s|
  {
    if |s| > 0 && IsWhitespace(s[|s| - 1]) then TrimEnd(s[..|s| - 1]) else s
  }

  /**
   `s.trim()`: the longest middle part of `s` that neither starts nor ends
   with whitespace; everything cut off is whitespace.
   */
  function Trim(s: string): (r: string)
    ensures Trimmed(r)
    ensures exists i: nat :: TrimmedFrom(r, s, i)
    ensures r == "" <==> forall i :: 0 <= i < |s| ==> IsWhitespace(s[i])
  {
    var t := TrimStart(s);
    var r := TrimEnd(t);
    assert r == s[|s| - |t|..|s| - |t| + |r|];
    assert TrimmedFrom(r, s, |s| - |t|) by {
      forall k | |s| - |t| + |r| <= k < |s| ensures IsWhitespace(s[k]) {
        assert s[k] == t[k - (|s| - |t|)];
      }
    }
    assert r == "" ==> forall i :: 0 <= i < |s| ==> IsWhitespace(s[i]) by {
      if r == "" {
        assert t == "";
      }
    }
    assert r != "" ==> !IsWhitespace(s[|s| - |t|]) by {
      if r != "" {
        assert r[0] == t[0];
      }
    }
    r
  }

  /** Trimming only removes characters: one absent before is absent after. */
  lemma TrimKeepsAbsent(s: string, c: char)
    requires c !in s
    ensures c !in Trim(s)
  {
    var r := Trim(s);
    var i: nat :| TrimmedFrom(r, s, i);
    forall k | 0 <= k < |r| ensures r[k] != c {
      assert r[k] == s[i + k];
    }
  }

  /** `pat` occurs in `s` at position `i`. */
  predicate OccursAt(s: string, pat: string, i: nat) {
    i + |pat| <= |s| && s[i..i + |pat|] == pat
  }

  /** Occurrences in `s[1..]` are the occurrences in `s` shifted left by one. */
  lemma OccursShift(s: string, pat: string, i: nat)
    requires |s| > 0
    ensures OccursAt(s, pat, i + 1) <==> OccursAt(s[1..], pat, i)
  {
    if i + 1 + |pat| <= |s| {
      assert s[i + 1..i + 1 + |pat|] == s[1..][i..i + |pat|];
    }
  }

  /**
   `s.replace(pat, rep)` for a literal pattern and a replacement without `$`
   patterns: only the first occurrence of `pat` is replaced.
   */
  function ReplaceFirst(s: string, pat: string, rep: string): (r: string)
    ensures OccursAt(s, pat, 0) ==> r == rep + s[|pat|..]
    decreases |s|
  {
    if OccursAt(s, pat, 0) then rep + s[|pat|..]
    else if |s| == 0 then s
    else [s[0]] + ReplaceFirst(s[1..], pat, rep)
  }

  /** Without an occurrence of `pat`, replacing leaves `s` as it is. */
  lemma {:induction false} ReplaceFirstAbsent(s: string, pat: string, rep: string)
    requires forall i: nat :: !OccursAt(s, pat, i)
    ensures ReplaceFirst(s, pat, rep) == s
    decreases |s|
  {
    if |s| > 0 && !OccursAt(s, pat, 0) {
      forall i: nat ensures !OccursAt(s[1..], pat, i) {
        OccursShift(s, pat, i);
      }
      ReplaceFirstAbsent(s[1..], pat, rep);
    }
  }

  /** Only the first occurrence of `pat`, at `i`, is replaced; the rest of `s` is kept. */
  lemma {:induction false} ReplaceFirstAt(s: string, pat: string, rep: string, i: nat)
    requires OccursAt(s, pat, i)
    requires forall j: nat :: j < i ==> !OccursAt(s, pat, j)
    ensures ReplaceFirst(s, pat, rep) == s[..i] + rep + s[i + |pat|..]
    decreases i
  {
    if i > 0 {
      assert !OccursAt(s, pat, 0);
      var t := s[1..];
      OccursShift(s, pat, i - 1);
      forall j: nat | j < i - 1 ensures !OccursAt(t, pat, j) {
        OccursShift(s, pat, j);
        assert !OccursAt(s, pat, j + 1);
      }
      ReplaceFirstAt(t, pat, rep, i - 1);
      assert s[..i] == [s[0]] + t[..i - 1];
      assert s[i + |pat|..] == t[i - 1 + |pat|..];
      calc {
        ReplaceFirst(s, pat, rep);
        [s[0]] + ReplaceFirst(t, pat, rep);
        [s[0]] + (t[..i - 1] + rep + t[i - 1 + |pat|..]);
        s[..i] + rep + s[i + |pat|..];
      }
    }
  }
}
