/**
 * The few `java.lang.String` and Apache Commons `StringUtils` operations the
 * modelled code relies on, written out over `seq<char>`.
 */
module JavaString {
  import opened Wrappers

  /** `Character.isWhitespace`: the separators Java treats as white space. */
  predicate IsWhitespace(c: char) {
    || c == ' '
    || ('\t' <= c <= '\r')
    || ('\U{1C}' <= c <= '\U{1F}')
    || c == '\U{1680}'
    || ('\U{2000}' <= c <= '\U{2006}')
    || ('\U{2008}' <= c <= '\U{200A}')
    || c == '\U{2028}' || c == '\U{2029}' || c == '\U{205F}' || c == '\U{3000}'
  }

  /** `StringUtils.isBlank` on a non-null string: empty or only white space. */
  predicate IsBlank(s: string) {
    forall i :: 0 <= i < |s| ==> IsWhitespace(s[i])
  }

  /** `StringUtils.isBlank` on a string that may be null. */
  predicate IsBlankOrNull(s: Option<string>) {
    s.None? || IsBlank(s.value)
  }

  /** A run of characters that `String.trim` removes (code points up to U+0020). */
  ghost predicate Padding(p: string) {
    forall i :: 0 <= i < |p| ==> p[i] <= ' '
  }

  /** A string `String.trim` leaves as it is: empty, or bounded by characters above U+0020. */
  predicate Trimmed(s: string) {
    s == [] || (s[0] > ' ' && s[|s| - 1] > ' ')
  }

  /** What `String.trim` leaves of the front: leading characters at or below U+0020 dropped. */
  function TrimStart(s: string): (r: string)
    ensures |r| <= |s|
    ensures r == [] || r[0] > ' '
  {
    if s != [] && s[0] <= ' ' then TrimStart(s[1..]) else s
  }

  /** What `String.trim` leaves of the back: trailing characters at or below U+0020 dropped. */
  function TrimEnd(s: string): (r: string)
    ensures |r| <= |s|
    ensures r == [] || r[|r| - 1] > ' '
  {
    if s != [] && s[|s| - 1] <= ' ' then TrimEnd(s[..|s| - 1]) else s
  }

  /** Front trimming keeps a suffix. */
  lemma {:induction false} TrimStartIsSuffix(s: string)
    ensures TrimStart(s) == s[|s| - |TrimStart(s)|..]
  {
    if s != [] && s[0] <= ' ' {
      TrimStartIsSuffix(s[1..]);
    }
  }

  /** Back trimming keeps a prefix. */
  lemma {:induction false} TrimEndIsPrefix(s: string)
    ensures TrimEnd(s) == s[..|TrimEnd(s)|]
  {
    if s != [] && s[|s| - 1] <= ' ' {
      TrimEndIsPrefix(s[..|s| - 1]);
    }
  }

  /**
   * `String.trim` (which `StringUtils.trim` calls): drops every leading and
   * trailing character at or below U+0020; what is left is trimmed.
   */
  function Trim(s: string): (r: string)
    ensures Trimmed(r)
    ensures |r| <= |s|
  {
    var t := TrimStart(s);
    TrimEndIsPrefix(t);
    assert TrimEnd(t) != [] ==> TrimEnd(t)[0] == t[0];
    TrimEnd(t)
  }

  /** `StringUtils.trim` on a string that may be null. */
  function TrimOrNull(s: Option<string>): (r: Option<string>)
    ensures r.None? <==> s.None?
    ensures s.Some? ==> r.value == Trim(s.value)
  {
    match s
    case None => None
    case Some(v) => Some(Trim(v))
  }

  /** Only padding is cut off the front. */
  lemma {:induction false} TrimStartCutsPadding(s: string)
    ensures Padding(s[..|s| - |TrimStart(s)|])
  {
    if s != [] && s[0] <= ' ' {
      TrimStartCutsPadding(s[1..]);
      var n := |s| - |TrimStart(s)|;
      assert s[..n] == [s[0]] + s[1..][..n - 1];
    }
  }

  /** Only padding is cut off the back. */
  lemma {:induction false} TrimEndCutsPadding(s: string)
    ensures Padding(s[|TrimEnd(s)|..])
  {
    if s != [] && s[|s| - 1] <= ' ' {
      TrimEndCutsPadding(s[..|s| - 1]);
      var n := |TrimEnd(s)|;
      assert s[n..] == s[..|s| - 1][n..] + [s[|s| - 1]];
    }
  }

  /** The result of `Trim` is an infix of its input with only padding cut off on either side. */
  lemma TrimIsInfix(s: string)
    ensures exists i :: 0 <= i <= |s| - |Trim(s)| && Trim(s) == s[i..i + |Trim(s)|] && Padding(s[..i]) && Padding(s[i + |Trim(s)|..])
  {
    var t := TrimStart(s);
    var r := Trim(s);
    var i := |s| - |t|;
    TrimStartIsSuffix(s);
    TrimEndIsPrefix(t);
    TrimStartCutsPadding(s);
    TrimEndCutsPadding(t);
    assert r == TrimEnd(t) == t[..|r|];
    assert t == s[i..];
    assert r == s[i..i + |r|];
    assert s[i + |r|..] == t[|r|..];
    assert Padding(s[..i]) && Padding(s[i + |r|..]);
  }

  /** Trimming the front of a string that starts with a padded rest drops exactly the padding. */
  lemma {:induction false} TrimStartOfPadded(p: string, rest: string)
    requires Padding(p) && (rest == [] || rest[0] > ' ')
    ensures TrimStart(p + rest) == rest
  {
    if p != [] {
      assert (p + rest)[1..] == p[1..] + rest;
      TrimStartOfPadded(p[1..], rest);
    } else {
      assert p + rest == rest;
    }
  }

  /** Trimming the back of a string that ends in padding drops exactly the padding. */
  lemma {:induction false} TrimEndOfPadded(rest: string, p: string)
    requires Padding(p) && (rest == [] || rest[|rest| - 1] > ' ')
    ensures TrimEnd(rest + p) == rest
  {
    if p != [] {
      assert (rest + p)[..|rest + p| - 1] == rest + p[..|p| - 1];
      TrimEndOfPadded(rest, p[..|p| - 1]);
    } else {
      assert rest + p == rest;
    }
  }

  /** Padding around a trimmed string is all that `Trim` removes. */
  lemma TrimOfPadded(left: string, x: string, right: string)
    requires Padding(left) && Padding(right) && Trimmed(x)
    ensures Trim(left + x + right) == x
  {
    if x == [] {
      assert left + x + right == (left + right) + [];
      TrimStartOfPadded(left + right, []);
    } else {
      assert left + x + right == left + (x + right);
      TrimStartOfPadded(left, x + right);
      TrimEndOfPadded(x, right);
    }
  }

  /** Trimming twice is trimming once. */
  lemma TrimIdempotent(s: string)
    ensures Trim(Trim(s)) == Trim(s)
  {
    TrimOfPadded([], Trim(s), []);
    assert [] + Trim(s) + [] == Trim(s);
  }

  /** Front trimming stops at the first character above U+0020, wherever it is. */
  lemma {:induction false} TrimStartConcat(head: string, tail: string)
    requires tail == [] || tail[0] > ' '
    ensures TrimStart(head + tail) == TrimStart(head) + tail
  {
    if head == [] {
      assert head + tail == tail;
    } else if head[0] <= ' ' {
      assert (head + tail)[1..] == head[1..] + tail;
      TrimStartConcat(head[1..], tail);
    }
  }

  /** A tail that starts and ends above U+0020 survives trimming of whatever precedes it. */
  lemma TrimKeepsTail(head: string, tail: string)
    requires tail != [] && Trimmed(tail)
    ensures EndsWith(Trim(head + tail), tail)
  {
    TrimStartConcat(head, tail);
    var u := TrimStart(head) + tail;
    assert u[|u| - 1] == tail[|tail| - 1];
    assert TrimEnd(u) == u;
    assert u[|u| - |tail|..] == tail;
  }

  /** `String.startsWith`. */
  predicate StartsWith(s: string, prefix: string) {
    |prefix| <= |s| && s[..|prefix|] == prefix
  }

  /** `String.endsWith`. */
  predicate EndsWith(s: string, suffix: string) {
    |suffix| <= |s| && s[|s| - |suffix|..] == suffix
  }

  /** `String.lastIndexOf` for one character: -1 when it does not occur. */
  function LastIndexOf(s: string, c: char): (r: int)
    ensures -1 <= r < |s|
    ensures r == -1 <==> c !in s
    ensures r >= 0 ==> s[r] == c && forall j :: r < j < |s| ==> s[j] != c
  {
    if s == [] then -1
    else if s[|s| - 1] == c then |s| - 1
    else
      var r := LastIndexOf(s[..|s| - 1], c);
      assert c !in s[..|s| - 1] ==> c !in s by {
        assert s == s[..|s| - 1] + [s[|s| - 1]];
      }
      r
  }

  /** A sequence of `k` copies of `x`. */
  function Repeat<T>(x: T, k: nat): (r: seq<T>)
    ensures |r| == k && forall i :: 0 <= i < k ==> r[i] == x
  {
    seq(k, _ => x)
  }

  /** The pieces of `s` between occurrences of `c`, empty pieces included. */
  function Pieces(s: string, c: char): (r: seq<string>)
    ensures |r| >= 1
  {
    if s == [] then [[]]
    else
      var rest := Pieces(s[1..], c);
      if s[0] == c then [[]] + rest else [[s[0]] + rest[0]] + rest[1..]
  }

  /** The list `ps` with its trailing empty strings removed. */
  function DropTrailingEmpty(ps: seq<string>): (r: seq<string>)
    ensures |r| <= |ps| && r == ps[..|r|]
    ensures r == [] || r[|r| - 1] != []
    ensures forall i :: |r| <= i < |ps| ==> ps[i] == []
  {
    if ps == [] then []
    else if ps[|ps| - 1] == [] then DropTrailingEmpty(ps[..|ps| - 1])
    else ps
  }

  /**
   * `String.split` with a one-character separator and no limit: when the
   * separator does not occur the whole string is the only part; otherwise
   * the pieces between separators, with trailing empty pieces dropped.
   * So "x@" has one part, "@m" two and "a@b@" two.
   */
  function Split(s: string, c: char): (r: seq<string>)
    ensures c !in s ==> r == [s]
    ensures c in s ==> r == DropTrailingEmpty(Pieces(s, c))
  {
    if c !in s then [s] else DropTrailingEmpty(Pieces(s, c))
  }

  /** The pieces joined back with the separator between them. */
  function Join(ps: seq<string>, c: char): string {
    if ps == [] then []
    else if |ps| == 1 then ps[0]
    else ps[0] + [c] + Join(ps[1..], c)
  }

  lemma {:induction false} PiecesHaveNoSeparator(s: string, c: char)
    ensures forall i :: 0 <= i < |Pieces(s, c)| ==> c !in Pieces(s, c)[i]
  {
    if s != [] {
      PiecesHaveNoSeparator(s[1..], c);
    }
  }

  lemma {:induction false} JoinPieces(s: string, c: char)
    ensures Join(Pieces(s, c), c) == s
  {
    if s != [] {
      var rest := Pieces(s[1..], c);
      JoinPieces(s[1..], c);
      if s[0] == c {
        assert Pieces(s, c)[1..] == rest;
      } else if |rest| == 1 {
        assert Pieces(s, c) == [[s[0]] + rest[0]];
        assert s == [s[0]] + s[1..];
      } else {
        var ps := Pieces(s, c);
        assert ps[1..] == rest[1..];
        assert Join(rest, c) == rest[0] + [c] + Join(rest[1..], c);
        assert s == [s[0]] + s[1..];
      }
    }
  }

  lemma {:induction false} JoinPaddedWithEmpty(ps: seq<string>, k: nat, c: char)
    requires ps != []
    ensures Join(ps + Repeat<string>([], k), c) == Join(ps, c) + Repeat(c, k)
  {
    if |ps| == 1 {
      if k > 0 {
        var tail := Repeat<string>([], k);
        assert (ps + tail)[1..] == tail;
        JoinEmpties(k - 1, c);
        assert Join(ps + tail, c) == ps[0] + [c] + Join(tail, c);
        assert Repeat(c, k) == [c] + Repeat(c, k - 1);
      } else {
        assert ps + Repeat<string>([], 0) == ps;
      }
    } else {
      JoinPaddedWithEmpty(ps[1..], k, c);
      assert (ps + Repeat<string>([], k))[1..] == ps[1..] + Repeat<string>([], k);
    }
  }

  lemma {:induction false} JoinEmpties(k: nat, c: char)
    ensures Join(Repeat<string>([], k + 1), c) == Repeat(c, k)
  {
    if k > 0 {
      JoinEmpties(k - 1, c);
      assert Repeat<string>([], k + 1)[1..] == Repeat<string>([], k);
      assert Repeat(c, k) == [] + [c] + Repeat(c, k - 1);
    }
  }

  lemma {:induction false} PiecesWithoutSeparator(a: string, t: string, c: char)
    requires c !in a
    ensures Pieces(a + t, c) == [a + Pieces(t, c)[0]] + Pieces(t, c)[1..]
  {
    if a != [] {
      PiecesWithoutSeparator(a[1..], t, c);
      assert (a + t)[1..] == a[1..] + t;
      assert (a + t)[0] == a[0];
      assert [a[0]] + (a[1..] + Pieces(t, c)[0]) == a + Pieces(t, c)[0];
    } else {
      assert a + t == t;
      var pt := Pieces(t, c);
      assert [] + pt[0] == pt[0];
      assert pt == [pt[0]] + pt[1..];
    }
  }

  lemma {:induction false} PiecesOfSeparators(k: nat, c: char)
    ensures Pieces(Repeat(c, k), c) == Repeat<string>([], k + 1)
  {
    if k > 0 {
      PiecesOfSeparators(k - 1, c);
      assert Repeat(c, k)[1..] == Repeat(c, k - 1);
    }
  }

  /** The shape of a string that splits on `c` into exactly the two parts `a` and `b`. */
  ghost predicate SplitsInTwo(s: string, c: char, a: string, b: string) {
    && c !in a && c !in b && b != []
    && exists k: nat :: s == a + [c] + b + Repeat(c, k)
  }

  /**
   * `Split` yields exactly two parts precisely when the string is a part
   * without the separator, one separator, a non-empty part without it, and
   * then nothing but separators.
   */
  lemma SplitTwoExactly(s: string, c: char)
    ensures |Split(s, c)| == 2 <==> exists a, b :: SplitsInTwo(s, c, a, b)
    ensures |Split(s, c)| == 2 ==> SplitsInTwo(s, c, Split(s, c)[0], Split(s, c)[1])
  {
    if |Split(s, c)| == 2 {
      SplitTwoShape(s, c);
    }
    if exists a, b :: SplitsInTwo(s, c, a, b) {
      var a, b :| SplitsInTwo(s, c, a, b);
      var k: nat :| s == a + [c] + b + Repeat(c, k);
      SplitOfShape(a, b, k, c);
    }
  }

  lemma SplitTwoShape(s: string, c: char)
    requires |Split(s, c)| == 2
    ensures SplitsInTwo(s, c, Split(s, c)[0], Split(s, c)[1])
  {
    var r := Split(s, c);
    var ps := Pieces(s, c);
    assert c in s;
    var k: nat := |ps| - 2;
    assert ps == r + Repeat<string>([], k);
    PiecesHaveNoSeparator(s, c);
    assert r[0] == ps[0] && r[1] == ps[1];
    JoinPieces(s, c);
    JoinPaddedWithEmpty(r, k, c);
    assert r[1..] == [r[1]];
    assert Join(r, c) == r[0] + [c] + r[1];
    assert s == r[0] + [c] + r[1] + Repeat(c, k);
  }

  lemma SplitOfShape(a: string, b: string, k: nat, c: char)
    requires c !in a && c !in b && b != []
    ensures Split(a + [c] + b + Repeat(c, k), c) == [a, b]
  {
    var s := a + [c] + b + Repeat(c, k);
    var rs := Repeat(c, k);
    PiecesOfSeparators(k, c);
    PiecesWithoutSeparator(b, rs, c);
    assert b + [] == b;
    var pb := Pieces(b + rs, c);
    assert pb == [b] + Repeat<string>([], k);
    assert ([c] + (b + rs))[1..] == b + rs;
    var pcb := Pieces([c] + (b + rs), c);
    assert pcb == [[]] + pb;
    PiecesWithoutSeparator(a, [c] + (b + rs), c);
    assert a + ([c] + (b + rs)) == s;
    var ps := Pieces(s, c);
    assert a + [] == a;
    assert ps == [a, b] + Repeat<string>([], k);
    assert s[|a|] == c;
    DropEmptyTail([a, b], k);
  }

  /** Separators at the very end produce no parts: `"x@".split("@")` is `["x"]`. */
  lemma SplitDropsTrailingSeparators(a: string, k: nat, c: char)
    requires c !in a && a != [] && k >= 1
    ensures Split(a + Repeat(c, k), c) == [a]
  {
    var rs := Repeat(c, k);
    PiecesOfSeparators(k, c);
    PiecesWithoutSeparator(a, rs, c);
    assert a + [] == a;
    assert Pieces(a + rs, c) == [a] + Repeat<string>([], k);
    assert (a + rs)[|a|] == c;
    DropEmptyTail([a], k);
  }

  lemma DropEmptyTail(ps: seq<string>, k: nat)
    requires ps != [] && ps[|ps| - 1] != []
    ensures DropTrailingEmpty(ps + Repeat<string>([], k)) == ps
  {
    var r := DropTrailingEmpty(ps + Repeat<string>([], k));
    assert (ps + Repeat<string>([], k))[|ps| - 1] == ps[|ps| - 1];
  }

  /** ASCII case mapping, all `String.equalsIgnoreCase` needs for ASCII keywords. */
  function UpperAscii(c: char): char {
    if 'a' <= c <= 'z' then (c as int - 32) as char else c
  }

  /** `String.equalsIgnoreCase` against a possibly null argument (null is never equal). */
  predicate EqualsIgnoreCase(s: string, other: Option<string>) {
    && other.Some?
    && |s| == |other.value|
    && forall i :: 0 <= i < |s| ==> UpperAscii(s[i]) == UpperAscii(other.value[i])
  }
}
