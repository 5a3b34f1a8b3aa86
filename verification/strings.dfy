/** The JavaScript string primitives the action relies on, stated over
    `seq<char>`: `String.prototype.split` (with and without a limit),
    `String.prototype.trim`, `toLowerCase` on ASCII letters, and the decimal
    rendering of a non-negative integer that template literals perform. */
module Strings {

  /** No character of `s` is one of `seps`. */
  predicate NoneIn(s: string, seps: set<char>) {
    forall i | 0 <= i < |s| :: s[i] !in seps
  }

  /** Every character of `s` is one of `chars`. */
  predicate AllIn(s: string, chars: set<char>) {
    forall i | 0 <= i < |s| :: s[i] in chars
  }

  /** A string framed by a fixed prefix and suffix can be read back out of
      the whole, so the framing is injective in the middle part. */
  lemma MiddleOf(p: string, x: string, q: string)
    ensures (p + x + q)[|p|..|p| + |x|] == x
    ensures forall y | p + y + q == p + x + q :: y == x
  {
    forall y | p + y + q == p + x + q ensures y == x {
      assert (p + y + q)[|p|..|p| + |y|] == y;
    }
  }

  /** Number of positions of `s` that hold a separator. */
  function Count(s: string, seps: set<char>): nat {
    if |s| == 0 then 0
    else (if s[0] in seps then 1 else 0) + Count(s[1..], seps)
  }

  /** `s` with every separator deleted. */
  function Remove(s: string, seps: set<char>): string {
    if |s| == 0 then ""
    else (if s[0] in seps then "" else [s[0]]) + Remove(s[1..], seps)
  }

  /** The pieces glued together with nothing in between. */
  function Concat(pieces: seq<string>): string {
    if |pieces| == 0 then "" else pieces[0] + Concat(pieces[1..])
  }

  /** JavaScript's `Array.prototype.join(sep)` for a one-character separator. */
  function Join(pieces: seq<string>, sep: char): string {
    if |pieces| == 0 then ""
    else if |pieces| == 1 then pieces[0]
    else pieces[0] + [sep] + Join(pieces[1..], sep)
  }

  lemma {:induction false} CountAppend(p: string, q: string, seps: set<char>)
    ensures Count(p + q, seps) == Count(p, seps) + Count(q, seps)
    decreases |p|
  {
    if |p| > 0 {
      assert (p + q)[1..] == p[1..] + q;
      CountAppend(p[1..], q, seps);
    } else {
      assert p + q == q;
    }
  }

  lemma {:induction false} RemoveAppend(p: string, q: string, seps: set<char>)
    ensures Remove(p + q, seps) == Remove(p, seps) + Remove(q, seps)
    decreases |p|
  {
    if |p| > 0 {
      assert (p + q)[1..] == p[1..] + q;
      RemoveAppend(p[1..], q, seps);
    } else {
      assert p + q == q;
    }
  }

  lemma {:induction false} FreeCountRemove(a: string, seps: set<char>)
    requires NoneIn(a, seps)
    ensures Count(a, seps) == 0
    ensures Remove(a, seps) == a
    decreases |a|
  {
    if |a| > 0 {
      FreeCountRemove(a[1..], seps);
      assert [a[0]] + a[1..] == a;
    }
  }

  /** Index of the first separator at or after `k`, or `|s|` when there is none. */
  function SepFrom(s: string, seps: set<char>, k: nat): (i: nat)
    requires k <= |s|
    ensures k <= i <= |s|
    ensures NoneIn(s[k..i], seps)
    ensures i < |s| ==> s[i] in seps
    decreases |s| - k
  {
    if k == |s| || s[k] in seps then k else SepFrom(s, seps, k + 1)
  }

  /** The pieces of `s[k..]` between separators (the scanning form of `Split`). */
  function SplitFrom(s: string, seps: set<char>, k: nat): (pieces: seq<string>)
    requires k <= |s|
    ensures |pieces| >= 1
    ensures forall j | 0 <= j < |pieces| :: NoneIn(pieces[j], seps)
    decreases |s| - k
  {
    var i := SepFrom(s, seps, k);
    if i == |s| then [s[k..]] else [s[k..i]] + SplitFrom(s, seps, i + 1)
  }

  /** JavaScript's `s.split(sep)` for a one-character separator, and
      `s.split(/[…]/)` for a character-class separator: every separator cuts,
      so the empty string gives `[""]` and adjacent separators give `""` pieces. */
  function Split(s: string, seps: set<char>): (pieces: seq<string>)
    ensures |pieces| >= 1
    ensures forall j | 0 <= j < |pieces| :: NoneIn(pieces[j], seps)
  {
    SplitFrom(s, seps, 0)
  }

  lemma {:induction false} SepFromFree(s: string, seps: set<char>, k: nat, j: nat)
    requires k <= j <= |s|
    requires NoneIn(s[k..j], seps)
    requires j == |s| || s[j] in seps
    ensures SepFrom(s, seps, k) == j
    decreases j - k
  {
    if k < j {
      assert s[k] == s[k..j][0];
      assert s[k + 1..j] == s[k..j][1..];
      SepFromFree(s, seps, k + 1, j);
    }
  }

  lemma {:induction false} SepFromShift(p: string, q: string, seps: set<char>, k: nat)
    requires k <= |q|
    ensures SepFrom(p + q, seps, |p| + k) == |p| + SepFrom(q, seps, k)
    decreases |q| - k
  {
    if k < |q| {
      assert (p + q)[|p| + k] == q[k];
      if q[k] !in seps {
        SepFromShift(p, q, seps, k + 1);
      }
    }
  }

  lemma {:induction false} SplitFromShift(p: string, q: string, seps: set<char>, k: nat)
    requires k <= |q|
    ensures SplitFrom(p + q, seps, |p| + k) == SplitFrom(q, seps, k)
    decreases |q| - k
  {
    SepFromShift(p, q, seps, k);
    var i := SepFrom(q, seps, k);
    if i == |q| {
      assert (p + q)[|p| + k..] == q[k..];
    } else {
      assert (p + q)[|p| + k..|p| + i] == q[k..i];
      SplitFromShift(p, q, seps, i + 1);
    }
  }

  /** A separator-free string is a single piece. */
  lemma SplitFree(a: string, seps: set<char>)
    requires NoneIn(a, seps)
    ensures Split(a, seps) == [a]
  {
    assert a[0..|a|] == a;
    SepFromFree(a, seps, 0, |a|);
  }

  /** The first separator ends the first piece; the rest is split on its own. */
  lemma SplitCons(a: string, c: char, b: string, seps: set<char>)
    requires NoneIn(a, seps)
    requires c in seps
    ensures Split(a + [c] + b, seps) == [a] + Split(b, seps)
  {
    var s := a + [c] + b;
    assert s[0..|a|] == a;
    SepFromFree(s, seps, 0, |a|);
    assert s == (a + [c]) + b;
    SplitFromShift(a + [c], b, seps, 0);
  }

  /** Any string decomposes at its first separator, if it has one. */
  lemma FirstSeparator(s: string, seps: set<char>)
    ensures var i := SepFrom(s, seps, 0);
            if i == |s| then NoneIn(s, seps) && Split(s, seps) == [s]
            else s == s[..i] + [s[i]] + s[i + 1..] && NoneIn(s[..i], seps) && s[i] in seps
                 && Split(s, seps) == [s[..i]] + Split(s[i + 1..], seps)
  {
    var i := SepFrom(s, seps, 0);
    if i == |s| {
      assert s[0..i] == s;
      SplitFree(s, seps);
    } else {
      assert s == s[..i] + [s[i]] + s[i + 1..];
      SplitCons(s[..i], s[i], s[i + 1..], seps);
    }
  }

  /** One piece more than there are separators. */
  lemma {:induction false} SplitCount(s: string, seps: set<char>)
    ensures |Split(s, seps)| == Count(s, seps) + 1
    decreases |s|
  {
    FirstSeparator(s, seps);
    var i := SepFrom(s, seps, 0);
    if i == |s| {
      FreeCountRemove(s, seps);
    } else {
      SplitCount(s[i + 1..], seps);
      FreeCountRemove(s[..i], seps);
      CountAppend(s[..i] + [s[i]], s[i + 1..], seps);
      CountAppend(s[..i], [s[i]], seps);
    }
  }

  /** The pieces, in order, are exactly the non-separator characters of `s`. */
  lemma {:induction false} SplitConcat(s: string, seps: set<char>)
    ensures Concat(Split(s, seps)) == Remove(s, seps)
    decreases |s|
  {
    FirstSeparator(s, seps);
    var i := SepFrom(s, seps, 0);
    if i == |s| {
      FreeCountRemove(s, seps);
    } else {
      var pieces := Split(s, seps);
      SplitConcat(s[i + 1..], seps);
      FreeCountRemove(s[..i], seps);
      RemoveAppend(s[..i] + [s[i]], s[i + 1..], seps);
      RemoveAppend(s[..i], [s[i]], seps);
      assert pieces[1..] == Split(s[i + 1..], seps);
    }
  }

  /** Splitting on one character and joining with it gives the string back. */
  lemma {:induction false} JoinSplit(s: string, c: char)
    ensures Join(Split(s, {c}), c) == s
    decreases |s|
  {
    FirstSeparator(s, {c});
    var i := SepFrom(s, {c}, 0);
    if i < |s| {
      var rest := Split(s[i + 1..], {c});
      JoinSplit(s[i + 1..], c);
      assert ([s[..i]] + rest)[1..] == rest;
    }
  }

  /** Joining separator-free pieces with one of the separators and splitting
      again gives the pieces back. */
  lemma {:induction false} SplitJoin(pieces: seq<string>, c: char, seps: set<char>)
    requires |pieces| >= 1 && c in seps
    requires forall j | 0 <= j < |pieces| :: NoneIn(pieces[j], seps)
    ensures Split(Join(pieces, c), seps) == pieces
    decreases |pieces|
  {
    if |pieces| == 1 {
      SplitFree(pieces[0], seps);
    } else {
      SplitJoin(pieces[1..], c, seps);
      SplitCons(pieces[0], c, Join(pieces[1..], c), seps);
    }
  }

  /** `s.endsWith(t)`. */
  predicate EndsWith(s: string, t: string) {
    |t| <= |s| && s[|s| - |t|..] == t
  }

  lemma PrefixAndSuffix(p: string, t: string)
    ensures p <= p + t
    ensures EndsWith(p + t, t)
  {
    assert (p + t)[..|p|] == p;
    assert (p + t)[|p|..] == t;
  }

  function Min(a: nat, b: nat): nat {
    if a <= b then a else b
  }

  /** JavaScript's `s.split(sep, limit)`: the pieces of the full split, of
      which only the first `limit` are kept. */
  function SplitLimit(s: string, sep: char, limit: nat): (pieces: seq<string>)
    ensures |pieces| == Min(|Split(s, {sep})|, limit)
    ensures pieces <= Split(s, {sep})
  {
    var all := Split(s, {sep});
    all[..Min(|all|, limit)]
  }

  /** The code points `String.prototype.trim` removes: the WhiteSpace
      (tab, vertical tab, form feed, space, no-break space, byte-order mark
      and the space separators of Unicode category Zs) and LineTerminator
      (line feed, carriage return, line and paragraph separators) productions
      of ECMAScript. */
  const JsWhitespace: set<char> := {
    '\t', '\n', '\U{0B}', '\U{0C}', '\r', ' ', '\U{A0}', '\U{1680}',
    '\U{2000}', '\U{2001}', '\U{2002}', '\U{2003}', '\U{2004}', '\U{2005}',
    '\U{2006}', '\U{2007}', '\U{2008}', '\U{2009}', '\U{200A}',
    '\U{2028}', '\U{2029}', '\U{202F}', '\U{205F}', '\U{3000}', '\U{FEFF}'
  }

  /** First index at or after `k` that is not whitespace, or `|s|`. */
  function StartFrom(s: string, k: nat): (i: nat)
    requires k <= |s|
    ensures k <= i <= |s|
    ensures AllIn(s[k..i], JsWhitespace)
    ensures i < |s| ==> s[i] !in JsWhitespace
    decreases |s| - k
  {
    if k == |s| || s[k] !in JsWhitespace then k else StartFrom(s, k + 1)
  }

  /** Largest index at or below `j` that follows a non-whitespace character, or 0. */
  function EndFrom(s: string, j: nat): (e: nat)
    requires j <= |s|
    ensures e <= j
    ensures AllIn(s[e..j], JsWhitespace)
    ensures e > 0 ==> s[e - 1] !in JsWhitespace
  {
    if j == 0 || s[j - 1] !in JsWhitespace then j
    else
      var e := EndFrom(s, j - 1);
      assert s[e..j] == s[e..j - 1] + [s[j - 1]];
      e
  }

  /** JavaScript's `String.prototype.trim`. */
  function Trim(s: string): (r: string)
    ensures |r| <= |s|
    ensures r == "" <==> AllIn(s, JsWhitespace)
    ensures r != "" ==> r[0] !in JsWhitespace && r[|r| - 1] !in JsWhitespace
    ensures exists b | 0 <= b <= |s| - |r| :: s[b..b + |r|] == r
              && AllIn(s[..b], JsWhitespace) && AllIn(s[b + |r|..], JsWhitespace)
  {
    var b := StartFrom(s, 0);
    var e := EndFrom(s, |s|);
    if b == |s| then
      assert s[0..|s|] == s;
      assert s[..0] == "" && s[0..0] == "";
      ""
    else
      assert s[..b] == s[0..b];
      assert b < e;
      assert AllIn(s[e..], JsWhitespace) by {
        assert s[e..] == s[e..|s|];
      }
      s[b..e]
  }

  /** `StartFrom` stops at the first non-whitespace index. */
  lemma {:induction false} StartFromAt(s: string, k: nat, i: nat)
    requires k <= i <= |s|
    requires AllIn(s[k..i], JsWhitespace)
    requires i < |s| ==> s[i] !in JsWhitespace
    ensures StartFrom(s, k) == i
    decreases i - k
  {
    if k < i {
      assert s[k] == s[k..i][0];
      assert s[k + 1..i] == s[k..i][1..];
      StartFromAt(s, k + 1, i);
    }
  }

  /** `EndFrom` stops just after the last non-whitespace index. */
  lemma {:induction false} EndFromAt(s: string, j: nat, e: nat)
    requires e <= j <= |s|
    requires AllIn(s[e..j], JsWhitespace)
    requires e > 0 ==> s[e - 1] !in JsWhitespace
    ensures EndFrom(s, j) == e
    decreases j - e
  {
    if e < j {
      assert s[j - 1] == s[e..j][j - 1 - e];
      assert s[e..j - 1] == s[e..j][..j - 1 - e];
      EndFromAt(s, j - 1, e);
    }
  }

  /** Trimming a text framed by whitespace returns the text, provided it
      starts and ends with something else. */
  lemma TrimFramed(lead: string, text: string, trail: string)
    requires AllIn(lead, JsWhitespace) && AllIn(trail, JsWhitespace)
    requires text != "" && text[0] !in JsWhitespace && text[|text| - 1] !in JsWhitespace
    ensures Trim(lead + text + trail) == text
  {
    var s := lead + text + trail;
    assert s[0..|lead|] == lead;
    StartFromAt(s, 0, |lead|);
    assert s[|lead| + |text|..|s|] == trail;
    EndFromAt(s, |s|, |lead| + |text|);
    assert s[|lead|..|lead| + |text|] == text;
  }

  /** Trimming never introduces a character, so separator-freeness survives it. */
  lemma TrimKeepsNoneIn(s: string, seps: set<char>)
    requires NoneIn(s, seps)
    ensures NoneIn(Trim(s), seps)
  {
    var r := Trim(s);
    var b :| 0 <= b <= |s| - |r| && s[b..b + |r|] == r
              && AllIn(s[..b], JsWhitespace) && AllIn(s[b + |r|..], JsWhitespace);
    forall i | 0 <= i < |r| ensures r[i] !in seps {
      assert r[i] == s[b + i];
    }
  }

  /** JavaScript's `toLowerCase` on the ASCII letters; other characters are
      kept as they are. */
  function LowerChar(c: char): char {
    if 'A' <= c <= 'Z' then (c as int - 'A' as int + 'a' as int) as char else c
  }

  function ToLower(s: string): (r: string)
    ensures |r| == |s|
    ensures forall i | 0 <= i < |s| :: r[i] == LowerChar(s[i])
  {
    seq(|s|, i requires 0 <= i < |s| => LowerChar(s[i]))
  }

  function DigitChar(d: nat): char
    requires d < 10
  {
    ('0' as int + d) as char
  }

  predicate IsDigit(c: char) {
    '0' <= c <= '9'
  }

  /** The decimal text of a non-negative integer, as `'' + n` or `${n}` renders it. */
  function NatToString(n: nat): (s: string)
    ensures |s| >= 1
    ensures forall i | 0 <= i < |s| :: IsDigit(s[i])
    ensures s[0] == '0' ==> n == 0 && s == "0"
  {
    if n < 10 then [DigitChar(n)] else NatToString(n / 10) + [DigitChar(n % 10)]
  }

  /** Reads a string of decimal digits back as a number. */
  function ParseNat(s: string): nat
    requires forall i | 0 <= i < |s| :: IsDigit(s[i])
  {
    if |s| == 0 then 0
    else
      assert IsDigit(s[|s| - 1]);
      ParseNat(s[..|s| - 1]) * 10 + (s[|s| - 1] as int - '0' as int)
  }

  /** Rendering loses nothing: the digits read back as the number. */
  lemma {:induction false} ParseNatToString(n: nat)
    ensures ParseNat(NatToString(n)) == n
  {
    if n >= 10 {
      var s := NatToString(n);
      assert s[..|s| - 1] == NatToString(n / 10);
      ParseNatToString(n / 10);
    }
  }

  /** `s` is the canonical decimal rendering of `n`: non-empty digits, no
      leading zero unless `s` is `0` itself, reading back as `n`. */
  predicate ReadsAs(s: string, n: nat) {
    && |s| >= 1
    && (s[0] == '0' ==> |s| == 1)
    && (forall i | 0 <= i < |s| :: IsDigit(s[i]))
    && ParseNat(s) == n
  }

  /** Digits that do not start with `0` read as a positive number. */
  lemma {:induction false} LeadingDigitPositive(s: string)
    requires |s| >= 1 && s[0] != '0'
    requires forall i | 0 <= i < |s| :: IsDigit(s[i])
    ensures ParseNat(s) >= 1
  {
    if |s| > 1 {
      LeadingDigitPositive(s[..|s| - 1]);
    }
  }

  /** The canonical decimal text is unique: whatever reads as `n` is exactly
      the rendering of `n`. */
  lemma {:induction false} CanonicalDecimalUnique(s: string, n: nat)
    requires ReadsAs(s, n)
    ensures s == NatToString(n)
  {
    var last := |s| - 1;
    assert IsDigit(s[last]);
    if |s| == 1 {
      assert ParseNat(s[..0]) == 0;
    } else {
      var p := s[..last];
      LeadingDigitPositive(p);
      assert n >= 10;
      assert ParseNat(p) == n / 10 && s[last] == DigitChar(n % 10);
      CanonicalDecimalUnique(p, n / 10);
      assert s == p + [s[last]];
    }
  }

}
