/** String operations the application relies on: Python's `str.strip()`,
    the ASCII-only case folding of SQLite's `LIKE`, SQLite's binary
    (code point) ordering of text, and splitting a text into its lines. */
module Text {

  /** The characters for which Python's `str.isspace()` holds; `strip()`
      with no argument removes exactly these. */
  predicate IsSpace(c: char) {
    || '\t' <= c <= '\r'
    || '\U{1C}' <= c <= '\U{1F}'
    || c == ' ' || c == '\U{85}' || c == '\U{A0}' || c == '\U{1680}'
    || '\U{2000}' <= c <= '\U{200A}'
    || c == '\U{2028}' || c == '\U{2029}' || c == '\U{202F}'
    || c == '\U{205F}' || c == '\U{3000}'
  }

  predicate AllSpace(s: string) {
    forall i :: 0 <= i < |s| ==> IsSpace(s[i])
  }

  function StripLeft(s: string): (r: string)
    ensures |r| <= |s|
    ensures r == "" || !IsSpace(r[0])
    ensures r == "" <==> AllSpace(s)
  {
    if |s| > 0 && IsSpace(s[0]) then StripLeft(s[1..]) else s
  }

  function StripRight(s: string): (r: string)
    ensures |r| <= |s|
    ensures r == "" || !IsSpace(r[|r| - 1])
    ensures r == "" <==> AllSpace(s)
  {
    if |s| > 0 && IsSpace(s[|s| - 1]) then StripRight(s[..|s| - 1]) else s
  }

  /** Python's `s.strip()`. */
  function Strip(s: string): (r: string)
    ensures |r| <= |s|
    ensures r == "" <==> AllSpace(s)
    ensures r != "" ==> !IsSpace(r[0]) && !IsSpace(r[|r| - 1])
  {
    var l := StripLeft(s);
    var r := StripRight(l);
    assert r != "" ==> r[0] == l[0] by {
      if r != "" { StripRightKeepsFront(l); }
    }
    r
  }

  lemma {:induction false} StripRightKeepsFront(s: string)
    requires StripRight(s) != ""
    ensures StripRight(s)[0] == s[0]
  {
    if |s| > 0 && IsSpace(s[|s| - 1]) {
      StripRightKeepsFront(s[..|s| - 1]);
    }
  }

  lemma {:induction false} StripLeftPadded(w: string, s: string)
    requires AllSpace(w)
    ensures StripLeft(w + s) == StripLeft(s)
  {
    if |w| > 0 {
      assert (w + s)[1..] == w[1..] + s;
      StripLeftPadded(w[1..], s);
    } else {
      assert w + s == s;
    }
  }

  lemma {:induction false} StripRightPadded(s: string, w: string)
    requires AllSpace(w)
    ensures StripRight(s + w) == StripRight(s)
  {
    if |w| > 0 {
      assert (s + w)[..|s + w| - 1] == s + w[..|w| - 1];
      StripRightPadded(s, w[..|w| - 1]);
    } else {
      assert s + w == s;
    }
  }

  /** Trailing text survives a left strip once a non-space has been met. */
  lemma {:induction false} StripLeftAppend(s: string, w: string)
    requires !AllSpace(s)
    ensures StripLeft(s + w) == StripLeft(s) + w
  {
    if IsSpace(s[0]) {
      assert (s + w)[1..] == s[1..] + w;
      StripLeftAppend(s[1..], w);
    }
  }

  /** Whitespace around a value does not change what it strips to. */
  lemma StripPadded(w1: string, s: string, w2: string)
    requires AllSpace(w1) && AllSpace(w2)
    ensures Strip(w1 + s + w2) == Strip(s)
  {
    assert w1 + s + w2 == w1 + (s + w2);
    StripLeftPadded(w1, s + w2);
    if AllSpace(s) {
      assert AllSpace(s + w2) by {
        forall i | 0 <= i < |s + w2| ensures IsSpace((s + w2)[i]) {
          if i >= |s| { assert (s + w2)[i] == w2[i - |s|]; }
        }
      }
    } else {
      StripLeftAppend(s, w2);
      StripRightPadded(StripLeft(s), w2);
    }
  }

  /** Stripping twice is stripping once. */
  lemma StripIdempotent(s: string)
    ensures Strip(Strip(s)) == Strip(s)
  {
  }

  /** Upper-case ASCII letters folded to lower case; every other character,
      Cyrillic included, is left alone, as SQLite's `LIKE` does. */
  function FoldChar(c: char): (d: char)
    ensures 'a' <= d <= 'z' ==> ('a' <= c <= 'z' || 'A' <= c <= 'Z')
    ensures !('A' <= c <= 'Z') ==> d == c
  {
    if 'A' <= c <= 'Z' then (c as int + 32) as char else c
  }

  function Fold(s: string): (r: string)
    ensures |r| == |s|
    ensures forall i :: 0 <= i < |s| ==> r[i] == FoldChar(s[i])
  {
    seq(|s|, i requires 0 <= i < |s| => FoldChar(s[i]))
  }

  /** SQLite's `LIKE 'q%'` with `q` escaped: `s` begins with `q` when ASCII
      letters are compared without regard to case. */
  predicate StartsWithFolded(s: string, q: string) {
    |q| <= |s| && Fold(s[..|q|]) == Fold(q)
  }

  /** SQLite's BINARY collation: text compared by code points, a proper
      prefix sorting first. */
  predicate LexLe(a: string, b: string) {
    |a| == 0 || (|b| > 0 && (a[0] < b[0] || (a[0] == b[0] && LexLe(a[1..], b[1..]))))
  }

  lemma {:induction false} LexLeTotal(a: string, b: string)
    ensures LexLe(a, b) || LexLe(b, a)
  {
    if |a| > 0 && |b| > 0 && a[0] == b[0] {
      LexLeTotal(a[1..], b[1..]);
    }
  }

  lemma {:induction false} LexLeTransitive(a: string, b: string, c: string)
    requires LexLe(a, b) && LexLe(b, c)
    ensures LexLe(a, c)
  {
    if |a| > 0 && a[0] == b[0] && b[0] == c[0] {
      LexLeTransitive(a[1..], b[1..], c[1..]);
    }
  }

  lemma {:induction false} LexLeAntisymmetric(a: string, b: string)
    requires LexLe(a, b) && LexLe(b, a)
    ensures a == b
  {
    if |a| > 0 {
      LexLeAntisymmetric(a[1..], b[1..]);
      assert a == [a[0]] + a[1..] && b == [b[0]] + b[1..];
    }
  }

  /** Index of the first newline in `s`, or `|s|` when there is none. */
  function LineEnd(s: string): (k: nat)
    ensures k <= |s|
    ensures '\n' !in s[..k]
    ensures k < |s| ==> s[k] == '\n'
  {
    if |s| == 0 || s[0] == '\n' then 0 else 1 + LineEnd(s[1..])
  }

  /** The lines of `s`, each without its terminating newline; a final piece
      with no newline after it is a line too. */
  function Lines(s: string): seq<string>
    decreases |s|
  {
    if |s| == 0 then []
    else
      var k := LineEnd(s);
      [s[..k]] + (if k < |s| then Lines(s[k + 1..]) else [])
  }

  lemma {:induction false} LineEndOf(a: string, b: string)
    requires '\n' !in a
    ensures LineEnd(a + "\n" + b) == |a|
  {
    if |a| > 0 {
      assert (a + "\n" + b)[1..] == a[1..] + "\n" + b;
      LineEndOf(a[1..], b);
    }
  }

  /** A newline-terminated line splits off the front of a text. */
  lemma LinesCons(a: string, b: string)
    requires '\n' !in a
    ensures Lines(a + "\n" + b) == [a] + Lines(b)
  {
    var s := a + "\n" + b;
    LineEndOf(a, b);
    assert s[..|a|] == a;
    assert s[|a| + 1..] == b;
  }
}
