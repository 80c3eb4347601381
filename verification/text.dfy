/** Character-level string operations the editor's text handling is built on:
    `String.prototype.split` and `Array.prototype.join` with a one-character
    separator, `trim`, `startsWith`, and character counting. */
module Text {

  /** The line separator the editor splits and joins on. */
  const Newline: char := '\n'

  /** The code points `String.prototype.trim` strips: ECMAScript's WhiteSpace
      (tab, vertical tab, form feed, space, no-break space, byte order mark and
      the Unicode space separators) and LineTerminator (LF, CR, LS, PS). */
  predicate IsWhitespace(c: char) {
    || c == '\t' || c == '\n' || c == '\U{B}' || c == '\U{C}' || c == '\r' || c == ' '
    || c == '\U{A0}' || c == '\U{1680}' || '\U{2000}' <= c <= '\U{200A}'
    || c == '\U{2028}' || c == '\U{2029}' || c == '\U{202F}' || c == '\U{205F}'
    || c == '\U{3000}' || c == '\U{FEFF}'
  }

  /** `s.startsWith(p)` */
  predicate StartsWith(s: string, p: string) {
    |p| <= |s| && s[..|p|] == p
  }

  /** True iff no part contains the separator. */
  predicate SeparatorFree(parts: seq<string>, sep: char) {
    forall i | 0 <= i < |parts| :: sep !in parts[i]
  }

  /** Number of occurrences of `c` in `s`. */
  function Count(s: string, c: char): (n: nat)
    ensures n <= |s|
  {
    if |s| == 0 then 0 else (if s[0] == c then 1 else 0) + Count(s[1..], c)
  }

  /** `s` with its leading whitespace removed. */
  function TrimStart(s: string): string {
    if |s| > 0 && IsWhitespace(s[0]) then TrimStart(s[1..]) else s
  }

  /** `TrimStart` removes a prefix of whitespace, and all of it. */
  lemma {:induction false} TrimStartFacts(s: string)
    ensures var r := TrimStart(s);
      && |r| <= |s| && r == s[|s| - |r|..]
      && (forall i | 0 <= i < |s| - |r| :: IsWhitespace(s[i]))
      && (r == [] || !IsWhitespace(r[0]))
  {
    if |s| > 0 && IsWhitespace(s[0]) {
      TrimStartFacts(s[1..]);
      var r := TrimStart(s);
      assert s[1..][|s| - 1 - |r|..] == s[|s| - |r|..];
      forall i | 0 <= i < |s| - |r| ensures IsWhitespace(s[i]) {
        if i > 0 {
          assert s[i] == s[1..][i - 1];
        }
      }
    }
  }

  /** `s` with its trailing whitespace removed. */
  function TrimEnd(s: string): string {
    if |s| > 0 && IsWhitespace(s[|s| - 1]) then TrimEnd(s[..|s| - 1]) else s
  }

  /** `TrimEnd` removes a suffix of whitespace, and all of it. */
  lemma {:induction false} TrimEndFacts(s: string)
    ensures var r := TrimEnd(s);
      && |r| <= |s| && r == s[..|r|]
      && (forall i | |r| <= i < |s| :: IsWhitespace(s[i]))
      && (r == [] || !IsWhitespace(r[|r| - 1]))
  {
    if |s| > 0 && IsWhitespace(s[|s| - 1]) {
      TrimEndFacts(s[..|s| - 1]);
      var r := TrimEnd(s);
      assert s[..|s| - 1][..|r|] == s[..|r|];
      forall i | |r| <= i < |s| ensures IsWhitespace(s[i]) {
        if i < |s| - 1 {
          assert s[i] == s[..|s| - 1][i];
        }
      }
    }
  }

  /** `s.trim()` */
  function Trim(s: string): string {
    TrimEnd(TrimStart(s))
  }

  /** Trimming leaves nothing exactly when the string is all whitespace, and
      otherwise leaves a string that starts and ends with a non-whitespace
      character. */
  lemma TrimFacts(s: string)
    ensures Trim(s) == [] <==> forall i | 0 <= i < |s| :: IsWhitespace(s[i])
    ensures Trim(s) != [] ==> !IsWhitespace(Trim(s)[0]) && !IsWhitespace(Trim(s)[|Trim(s)| - 1])
  {
    var t := TrimStart(s);
    var r := TrimEnd(t);
    TrimStartFacts(s);
    TrimEndFacts(t);
    if r != [] {
      assert r[0] == t[0];
      var i := |s| - |t|;
      assert s[i] == t[0];
    }
  }

  /** Skipping a known run of leading whitespace is what `TrimStart` does. */
  lemma {:induction false} TrimStartSkips(s: string, n: nat)
    requires n <= |s|
    requires forall i | 0 <= i < n :: IsWhitespace(s[i])
    requires n == |s| || !IsWhitespace(s[n])
    ensures TrimStart(s) == s[n..]
  {
    if n > 0 {
      TrimStartSkips(s[1..], n - 1);
      assert s[1..][n - 1..] == s[n..];
    }
  }

  /** Trailing whitespace cannot affect whether a trimmed string starts with a
      key that itself ends in a non-whitespace character. */
  lemma TrimmedStartsWith(s: string, key: string)
    requires |key| > 0 && !IsWhitespace(key[|key| - 1])
    ensures StartsWith(Trim(s), key) <==> StartsWith(TrimStart(s), key)
  {
    var t := TrimStart(s);
    var r := TrimEnd(t);
    TrimEndFacts(t);
    if StartsWith(t, key) {
      assert t[|key| - 1] == key[|key| - 1];
      assert |r| >= |key|;
      assert r[..|key|] == t[..|key|];
    }
    if StartsWith(r, key) {
      assert t[..|key|] == r[..|key|];
    }
  }

  /** `s.split(sep)`: the pieces between separators, always at least one. */
  function Split(s: string, sep: char): (r: seq<string>)
    ensures |r| > 0
  {
    if |s| == 0 then [""]
    else
      var rest := Split(s[1..], sep);
      if s[0] == sep then [""] + rest
      else [[s[0]] + rest[0]] + rest[1..]
  }

  /** There is one more piece than there are separators, and no piece
      contains the separator. */
  lemma {:induction false} SplitFacts(s: string, sep: char)
    ensures |Split(s, sep)| == Count(s, sep) + 1
    ensures SeparatorFree(Split(s, sep), sep)
  {
    if |s| > 0 {
      SplitFacts(s[1..], sep);
      var rest := Split(s[1..], sep);
      if s[0] != sep {
        var first := [s[0]] + rest[0];
        assert sep !in rest[0];
        assert sep !in first;
      }
    }
  }

  /** `parts.join(sep)`; the empty list joins to the empty string. */
  function Join(parts: seq<string>, sep: char): string {
    if |parts| == 0 then ""
    else if |parts| == 1 then parts[0]
    else parts[0] + [sep] + Join(parts[1..], sep)
  }

  /** Joining the pieces of a split gives back the original string. */
  lemma {:induction false} JoinSplit(s: string, sep: char)
    ensures Join(Split(s, sep), sep) == s
  {
    if |s| > 0 {
      var rest := Split(s[1..], sep);
      JoinSplit(s[1..], sep);
      if s[0] == sep {
        assert Split(s, sep) == [""] + rest;
        JoinCons("", rest, sep);
        assert s == [sep] + s[1..];
      } else {
        var first := [s[0]] + rest[0];
        assert Split(s, sep) == [first] + rest[1..];
        if |rest| == 1 {
          assert Join([first], sep) == first;
          assert s == [s[0]] + s[1..];
        } else {
          JoinCons(first, rest[1..], sep);
          JoinCons(rest[0], rest[1..], sep);
          assert [rest[0]] + rest[1..] == rest;
          assert s == [s[0]] + s[1..];
        }
      }
    }
  }

  /** Joining one more part in front. */
  lemma JoinCons(head: string, tail: seq<string>, sep: char)
    requires |tail| > 0
    ensures Join([head] + tail, sep) == head + [sep] + Join(tail, sep)
  {
    assert ([head] + tail)[1..] == tail;
  }

  /** Joining a concatenation of two non-empty lists puts one separator
      between the two joins. */
  lemma {:induction false} JoinAppend(a: seq<string>, b: seq<string>, sep: char)
    requires |a| > 0 && |b| > 0
    ensures Join(a + b, sep) == Join(a, sep) + [sep] + Join(b, sep)
  {
    if |a| == 1 {
      assert a + b == [a[0]] + b;
      JoinCons(a[0], b, sep);
    } else {
      JoinAppend(a[1..], b, sep);
      assert a + b == [a[0]] + (a[1..] + b);
      JoinCons(a[0], a[1..] + b, sep);
      JoinCons(a[0], a[1..], sep);
      assert [a[0]] + a[1..] == a;
    }
  }

  /** A string without the separator splits into itself alone. */
  lemma {:induction false} SplitSeparatorFree(a: string, sep: char)
    requires sep !in a
    ensures Split(a, sep) == [a]
  {
    if |a| > 0 {
      assert sep !in a[1..] by {
        forall i | 0 <= i < |a[1..]| ensures a[1..][i] != sep {
          assert a[1..][i] == a[i + 1];
        }
      }
      SplitSeparatorFree(a[1..], sep);
      assert [a[0]] + a[1..] == a;
    }
  }

  /** A separator-free piece followed by a separator splits off as one part. */
  lemma {:induction false} SplitCons(a: string, b: string, sep: char)
    requires sep !in a
    ensures Split(a + [sep] + b, sep) == [a] + Split(b, sep)
    decreases |a|
  {
    var s := a + [sep] + b;
    if |a| == 0 {
      assert s[0] == sep && s[1..] == b;
    } else {
      assert s[0] == a[0];
      assert s[1..] == a[1..] + [sep] + b;
      assert sep !in a[1..] by {
        forall i | 0 <= i < |a[1..]| ensures a[1..][i] != sep {
          assert a[1..][i] == a[i + 1];
        }
      }
      SplitCons(a[1..], b, sep);
      assert [a[0]] + a[1..] == a;
    }
  }

  /** Splitting a join of separator-free parts gives back the parts. */
  lemma {:induction false} SplitJoin(parts: seq<string>, sep: char)
    requires |parts| > 0 && SeparatorFree(parts, sep)
    ensures Split(Join(parts, sep), sep) == parts
  {
    if |parts| == 1 {
      SplitSeparatorFree(parts[0], sep);
    } else {
      assert SeparatorFree(parts[1..], sep) by {
        forall i | 0 <= i < |parts[1..]| ensures sep !in parts[1..][i] {
          assert parts[1..][i] == parts[i + 1];
        }
      }
      SplitJoin(parts[1..], sep);
      assert sep !in parts[0];
      SplitCons(parts[0], Join(parts[1..], sep), sep);
      assert [parts[0]] + parts[1..] == parts;
    }
  }

  /** Splitting a string that starts with the separator. */
  lemma SplitSeparatorFirst(x: string, sep: char)
    ensures Split([sep] + x, sep) == [""] + Split(x, sep)
  {
    assert ([sep] + x)[1..] == x;
  }

  /** Splitting a string that starts with another character: it joins the
      first piece. */
  lemma SplitOtherFirst(c: char, x: string, sep: char)
    requires c != sep
    ensures var X := Split(x, sep);
      Split([c] + x, sep) == [[c] + X[0]] + X[1..]
  {
    assert ([c] + x)[1..] == x;
  }

  /** The pieces of `a + b` from the pieces `A` of `a` and `B` of `b`: the
      last piece of `A` and the first of `B` fuse into one. */
  function Fuse(A: seq<string>, B: seq<string>): seq<string>
    requires |A| > 0 && |B| > 0
  {
    A[..|A| - 1] + [A[|A| - 1] + B[0]] + B[1..]
  }

  /** Splitting a concatenation fuses the last piece of the first string with
      the first piece of the second and keeps everything else. */
  lemma {:induction false} SplitAppend(a: string, b: string, sep: char)
    ensures Split(a + b, sep) == Fuse(Split(a, sep), Split(b, sep))
    decreases |a|
  {
    if |a| == 0 {
      assert a + b == b;
      assert Split(a, sep) == [""];
      var B := Split(b, sep);
      assert "" + B[0] == B[0];
      assert Fuse([""], B) == [B[0]] + B[1..];
    } else {
      var a' := a[1..];
      SplitAppend(a', b, sep);
      assert a == [a[0]] + a';
      assert a + b == [a[0]] + (a' + b);
      if a[0] == sep {
        SplitSeparatorFirst(a', sep);
        SplitSeparatorFirst(a' + b, sep);
        FuseSeparatorHead(Split(a', sep), Split(b, sep));
      } else {
        SplitOtherFirst(a[0], a', sep);
        SplitOtherFirst(a[0], a' + b, sep);
        FuseOtherHead(a[0], Split(a', sep), Split(b, sep));
      }
    }
  }

  lemma FuseSeparatorHead(A: seq<string>, B: seq<string>)
    requires |A| > 0 && |B| > 0
    ensures [""] + Fuse(A, B) == Fuse([""] + A, B)
  {
    assert ([""] + A)[..|A|] == [""] + A[..|A| - 1];
  }

  lemma FuseOtherHead(c: char, A: seq<string>, B: seq<string>)
    requires |A| > 0 && |B| > 0
    ensures var R := Fuse(A, B);
      [[c] + R[0]] + R[1..] == Fuse([[c] + A[0]] + A[1..], B)
  {
    var R := Fuse(A, B);
    var C := [[c] + A[0]] + A[1..];
    if |A| == 1 {
      assert R == [A[0] + B[0]] + B[1..];
      assert [c] + (A[0] + B[0]) == ([c] + A[0]) + B[0];
      assert C[..|C| - 1] == [];
    } else {
      assert R[0] == A[0];
      assert R[1..] == A[1..|A| - 1] + [A[|A| - 1] + B[0]] + B[1..];
      assert C[..|C| - 1] == [[c] + A[0]] + A[1..|A| - 1];
      assert C[|C| - 1] == A[|A| - 1];
    }
  }

  /** Counting distributes over a split of the string into prefix and rest. */
  lemma {:induction false} CountAppend(a: string, b: string, c: char)
    ensures Count(a + b, c) == Count(a, c) + Count(b, c)
  {
    if |a| > 0 {
      assert (a + b)[1..] == a[1..] + b;
      CountAppend(a[1..], b, c);
    } else {
      assert a + b == b;
    }
  }

  /** A longer prefix never holds fewer occurrences. */
  lemma CountPrefixMonotone(s: string, i: nat, j: nat, c: char)
    requires i <= j <= |s|
    ensures Count(s[..i], c) <= Count(s[..j], c)
  {
    assert s[..j] == s[..i] + s[i..j];
    CountAppend(s[..i], s[i..j], c);
  }
}
