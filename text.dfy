/**
 * The few Python `str` builtins the cron inventory relies on, as functions
 * on `seq<char>`: whitespace (`str.isspace`), `strip()`, `split()` with no
 * separator, `" ".join(...)`, the decimal rendering of a line number in an
 * f-string, and the code-point order that `sorted` uses on names.
 */
module Text {

  /** `str.isspace()` for one character: the separators `strip()` and
      `split()` without arguments remove. */
  predicate IsSpace(c: char) {
    c == ' ' || ('\t' <= c <= '\r') || ('\U{1C}' <= c <= '\U{1F}')
    || c == '\U{85}' || c == '\U{A0}' || c == '\U{1680}'
    || ('\U{2000}' <= c <= '\U{200A}') || c == '\U{2028}' || c == '\U{2029}'
    || c == '\U{202F}' || c == '\U{205F}' || c == '\U{3000}'
  }

  /** A token of `split()`: non-empty and free of whitespace. */
  predicate IsWord(w: string) {
    w != [] && forall i :: 0 <= i < |w| ==> !IsSpace(w[i])
  }

  predicate AllWords(ws: seq<string>) {
    forall i :: 0 <= i < |ws| ==> IsWord(ws[i])
  }

  /** Text as `" ".join` of words leaves it: non-empty, no leading or trailing
      whitespace, and every whitespace character a single space followed by a
      non-space. */
  predicate Normalized(s: string) {
    s != [] && !IsSpace(s[0]) && !IsSpace(s[|s| - 1]) &&
    forall i :: 0 <= i < |s| && IsSpace(s[i]) ==> i + 1 < |s| && s[i] == ' ' && !IsSpace(s[i + 1])
  }

  function TrimLeft(s: string): (r: string)
    ensures r == [] || !IsSpace(r[0])
  {
    if s != [] && IsSpace(s[0]) then TrimLeft(s[1..]) else s
  }

  function TrimRight(s: string): (r: string)
    ensures r == [] || !IsSpace(r[|r| - 1])
    ensures |r| <= |s| && r == s[..|r|]
  {
    if s != [] && IsSpace(s[|s| - 1]) then TrimRight(s[..|s| - 1]) else s
  }

  /** `str.strip()`: drops leading and trailing whitespace and nothing else. */
  function Strip(s: string): (r: string)
    ensures r == [] || (!IsSpace(r[0]) && !IsSpace(r[|r| - 1]))
  {
    TrimRight(TrimLeft(s))
  }

  /** Length of the leading run of non-whitespace characters. */
  function WordLen(s: string): (n: nat)
    ensures n <= |s|
    ensures forall i :: 0 <= i < n ==> !IsSpace(s[i])
    ensures n < |s| ==> IsSpace(s[n])
  {
    if s == [] || IsSpace(s[0]) then 0 else 1 + WordLen(s[1..])
  }

  /** `str.split()` with no separator: the maximal runs of non-whitespace,
      in order. */
  function Split(s: string): (ws: seq<string>)
    ensures AllWords(ws)
    decreases |s|
  {
    if s == [] then []
    else if IsSpace(s[0]) then Split(s[1..])
    else
      var n := WordLen(s);
      [s[..n]] + Split(s[n..])
  }

  /** `" ".join(ws)`. */
  function Join(ws: seq<string>): string {
    if ws == [] then "" else if |ws| == 1 then ws[0] else ws[0] + " " + Join(ws[1..])
  }

  lemma WordLenIs(s: string, k: nat)
    requires k <= |s|
    requires forall i :: 0 <= i < k ==> !IsSpace(s[i])
    requires k == |s| || IsSpace(s[k])
    ensures WordLen(s) == k
  {
  }

  lemma SplitWord(w: string)
    requires IsWord(w)
    ensures Split(w) == [w]
  {
    WordLenIs(w, |w|);
    assert w[..|w|] == w;
  }

  /** One whitespace character separates the tokens of its two sides. */
  lemma {:induction false} SplitAtSpace(a: string, c: char, b: string)
    requires IsSpace(c)
    ensures Split(a + [c] + b) == Split(a) + Split(b)
    decreases |a|
  {
    var s := a + [c] + b;
    if a == [] {
      assert s == [c] + b;
      assert s[1..] == b;
    } else if IsSpace(a[0]) {
      assert s[1..] == a[1..] + [c] + b;
      SplitAtSpace(a[1..], c, b);
    } else {
      var n := WordLen(a);
      WordLenIs(s, n);
      assert s[..n] == a[..n];
      assert s[n..] == a[n..] + [c] + b;
      SplitAtSpace(a[n..], c, b);
    }
  }

  lemma {:induction false} SplitJoin(ws: seq<string>)
    requires AllWords(ws)
    ensures Split(Join(ws)) == ws
  {
    if ws == [] {
    } else if |ws| == 1 {
      SplitWord(ws[0]);
    } else {
      assert AllWords(ws[1..]);
      SplitJoin(ws[1..]);
      SplitAtSpace(ws[0], ' ', Join(ws[1..]));
      SplitWord(ws[0]);
      assert ws[0] + " " + Join(ws[1..]) == ws[0] + [' '] + Join(ws[1..]);
      assert ws == [ws[0]] + ws[1..];
    }
  }

  lemma {:induction false} SplitTrimLeft(s: string)
    ensures Split(TrimLeft(s)) == Split(s)
  {
    if s != [] && IsSpace(s[0]) {
      SplitTrimLeft(s[1..]);
    }
  }

  lemma {:induction false} SplitTrimRight(s: string)
    ensures Split(TrimRight(s)) == Split(s)
  {
    if s != [] && IsSpace(s[|s| - 1]) {
      var p := s[..|s| - 1];
      SplitTrimRight(p);
      SplitAtSpace(p, s[|s| - 1], []);
      assert p + [s[|s| - 1]] + [] == s;
    }
  }

  /** A word-initial string splits into a first token that starts with its
      first character. */
  lemma SplitHead(t: string)
    requires t != [] && !IsSpace(t[0])
    ensures Split(t) != [] && Split(t)[0][0] == t[0]
  {
  }

  /** What `strip()` leaves is empty exactly when `split()` finds no token,
      and otherwise starts with the first token's first character. */
  lemma SplitStrip(s: string)
    ensures Split(Strip(s)) == Split(s)
    ensures Strip(s) == [] <==> Split(s) == []
    ensures Strip(s) != [] ==> Strip(s)[0] == Split(s)[0][0]
  {
    SplitTrimLeft(s);
    SplitTrimRight(TrimLeft(s));
    if Strip(s) != [] {
      SplitHead(Strip(s));
    }
  }

  lemma {:induction false} JoinAppend(xs: seq<string>, ys: seq<string>)
    requires xs != [] && ys != []
    ensures Join(xs + ys) == Join(xs) + " " + Join(ys)
  {
    if |xs| == 1 {
      assert (xs + ys)[1..] == ys;
    } else {
      assert (xs + ys)[1..] == xs[1..] + ys;
      JoinAppend(xs[1..], ys);
    }
  }

  lemma {:induction false} JoinNormalized(ws: seq<string>)
    requires ws != [] && AllWords(ws)
    ensures Normalized(Join(ws))
  {
    if |ws| > 1 {
      var w, j := ws[0], Join(ws[1..]);
      assert AllWords(ws[1..]);
      JoinNormalized(ws[1..]);
      var s := w + " " + j;
      assert IsWord(w);
      forall i | 0 <= i < |s| && IsSpace(s[i])
        ensures i + 1 < |s| && s[i] == ' ' && !IsSpace(s[i + 1])
      {
        if i > |w| {
          assert s[i] == j[i - |w| - 1];
          assert s[i + 1] == j[i - |w|];
        }
      }
    }
  }

  /** The digit character for `d`. */
  function DigitChar(d: nat): (c: char)
    requires d < 10
    ensures '0' <= c <= '9' && c as int - '0' as int == d
  {
    ('0' as int + d) as char
  }

  /** Decimal rendering of a natural number, as `f"{n}"` writes it. */
  function NatToString(n: nat): (s: string)
    ensures s != []
    ensures forall i :: 0 <= i < |s| ==> '0' <= s[i] <= '9'
  {
    if n < 10 then [DigitChar(n)] else NatToString(n / 10) + [DigitChar(n % 10)]
  }

  lemma {:induction false} NatToStringInjective(a: nat, b: nat)
    ensures NatToString(a) == NatToString(b) ==> a == b
  {
    if a >= 10 && b >= 10 {
      var sa, sb := NatToString(a), NatToString(b);
      assert sa[|sa| - 1] == DigitChar(a % 10);
      assert sb[|sb| - 1] == DigitChar(b % 10);
      assert sa[..|sa| - 1] == NatToString(a / 10);
      assert sb[..|sb| - 1] == NatToString(b / 10);
      NatToStringInjective(a / 10, b / 10);
    }
  }

  predicate IsDigit(c: char) { '0' <= c <= '9' }

  /** The number of decimal digits that end `s`. */
  function TrailingDigits(s: string): (n: nat)
    ensures n <= |s|
  {
    if s != [] && IsDigit(s[|s| - 1]) then 1 + TrailingDigits(s[..|s| - 1]) else 0
  }

  lemma {:induction false} TrailingDigitsAfterColon(p: string, d: string)
    requires forall i :: 0 <= i < |d| ==> IsDigit(d[i])
    ensures TrailingDigits(p + ":" + d) == |d|
  {
    if d != [] {
      var s := p + ":" + d;
      assert s[..|s| - 1] == p + ":" + d[..|d| - 1];
      TrailingDigitsAfterColon(p, d[..|d| - 1]);
    }
  }

  /** `p + ":" + f"{n}"` determines both `p` and `n`. */
  lemma ColonNumberInjective(p: string, m: nat, q: string, n: nat)
    ensures p + ":" + NatToString(m) == q + ":" + NatToString(n) ==> p == q && m == n
  {
    var sm, sn := NatToString(m), NatToString(n);
    var x, y := p + ":" + sm, q + ":" + sn;
    TrailingDigitsAfterColon(p, sm);
    TrailingDigitsAfterColon(q, sn);
    if x == y {
      assert |sm| == |sn|;
      assert sm == x[|x| - |sm|..];
      assert sn == y[|y| - |sn|..];
      assert p == x[..|p|];
      assert q == y[..|q|];
      NatToStringInjective(m, n);
    }
  }

  /** Python's `<=` on strings: lexicographic by code point. */
  predicate LexLe(a: string, b: string) {
    a == [] || (b != [] && (a[0] < b[0] || (a[0] == b[0] && LexLe(a[1..], b[1..]))))
  }

  lemma {:induction false} LexLeTotal(a: string, b: string)
    ensures LexLe(a, b) || LexLe(b, a)
  {
    if a != [] && b != [] && a[0] == b[0] {
      LexLeTotal(a[1..], b[1..]);
    }
  }

  lemma {:induction false} LexLeTransitive(a: string, b: string, c: string)
    requires LexLe(a, b) && LexLe(b, c)
    ensures LexLe(a, c)
  {
    if a != [] && a[0] == b[0] && b[0] == c[0] {
      LexLeTransitive(a[1..], b[1..], c[1..]);
    }
  }
}
