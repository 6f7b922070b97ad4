/**
 * The JavaScript string operations the timetable engine relies on, on `seq<char>`:
 * the `\s` character class, `trim`, `replace(/[()]/g, ' ')`, `split(/\s+/).filter(Boolean)`,
 * the `/^\d+$/` test with `Number(token)`, `String(n)` for naturals,
 * and an ASCII stand-in for `toLowerCase` with `includes`.
 */
module Text {

  /** The characters matched by `\s`; `String.prototype.trim` removes the same set. */
  predicate IsSpace(c: char) {
    || c == ' ' || c == '\t' || c == '\n' || c == '\r' || c == '\U{000B}' || c == '\U{000C}'
    || c == '\U{00A0}' || c == '\U{1680}' || ('\U{2000}' <= c <= '\U{200A}')
    || c == '\U{2028}' || c == '\U{2029}' || c == '\U{202F}' || c == '\U{205F}'
    || c == '\U{3000}' || c == '\U{FEFF}'
  }

  predicate NoSpace(s: string) {
    forall i :: 0 <= i < |s| ==> !IsSpace(s[i])
  }

  predicate AllSpace(s: string) {
    forall i :: 0 <= i < |s| ==> IsSpace(s[i])
  }

  // ---------------------------------------------------------------- trim

  /** The position of the first non-whitespace character of `s` at or after `i`, or `|s|`. */
  function SkipStart(s: string, i: nat): (j: nat)
    requires i <= |s|
    ensures i <= j <= |s| && (j < |s| ==> !IsSpace(s[j]))
    ensures forall m :: i <= m < j ==> IsSpace(s[m])
    decreases |s| - i
  {
    if i < |s| && IsSpace(s[i]) then SkipStart(s, i + 1) else i
  }

  /** The position just after the last non-whitespace character of `s` before `j`, or 0. */
  function SkipEnd(s: string, j: nat): (k: nat)
    requires j <= |s|
    ensures k <= j && (k > 0 ==> !IsSpace(s[k - 1]))
    ensures forall m :: k <= m < j ==> IsSpace(s[m])
  {
    if j > 0 && IsSpace(s[j - 1]) then SkipEnd(s, j - 1) else j
  }

  /** `s.trim()`: the slice of `s` between its leading and its trailing whitespace. */
  function Trim(s: string): (r: string)
    ensures |r| <= |s|
    ensures r == [] || (!IsSpace(r[0]) && !IsSpace(r[|r| - 1]))
    ensures r == [] <==> AllSpace(s)
    ensures exists i, k :: 0 <= i <= k <= |s| && r == s[i..k] && AllSpace(s[..i]) && AllSpace(s[k..])
  {
    var i := SkipStart(s, 0);
    var k := SkipEnd(s, |s|);
    if i < k then
      assert !IsSpace(s[i]);
      assert AllSpace(s[..i]) && AllSpace(s[k..]);
      s[i..k]
    else
      assert AllSpace(s[..|s|]) && AllSpace(s[|s|..]) && s[|s|..|s|] == [];
      []
  }

  /** A string that neither starts nor ends with whitespace is its own trim. */
  lemma TrimmedAlready(s: string)
    requires s == [] || (!IsSpace(s[0]) && !IsSpace(s[|s| - 1]))
    ensures Trim(s) == s
  {
    if s != [] {
      assert SkipStart(s, 0) == 0 && SkipEnd(s, |s|) == |s|;
      assert s[0..|s|] == s;
    }
  }

  /** Trimming twice is trimming once. */
  lemma TrimIdempotent(s: string)
    ensures Trim(Trim(s)) == Trim(s)
  {
    TrimmedAlready(Trim(s));
  }

  // ---------------------------------------------------------------- tokens

  /** `s.replace(/[()]/g, ' ')`: every parenthesis becomes a space, nothing else changes. */
  function BlankParens(s: string): (r: string)
    ensures |r| == |s| && '(' !in r && ')' !in r
    ensures forall i :: 0 <= i < |s| ==> r[i] == if s[i] == '(' || s[i] == ')' then ' ' else s[i]
  {
    seq(|s|, i requires 0 <= i < |s| => if s[i] == '(' || s[i] == ')' then ' ' else s[i])
  }

  /** The longest whitespace-free prefix of `s`. */
  function Run(s: string): (w: string)
    ensures |w| <= |s| && w == s[..|w|] && NoSpace(w)
    ensures |w| < |s| ==> IsSpace(s[|w|])
  {
    if s == [] || IsSpace(s[0]) then [] else [s[0]] + Run(s[1..])
  }

  /** `s.split(/\s+/).filter(Boolean)`: the maximal whitespace-free pieces of `s`, in order. */
  function Words(s: string): (ws: seq<string>)
    ensures forall k :: 0 <= k < |ws| ==> ws[k] != [] && NoSpace(ws[k])
    ensures forall k, i :: 0 <= k < |ws| && 0 <= i < |ws[k]| ==> ws[k][i] in s
    decreases |s|
  {
    if s == [] then []
    else if IsSpace(s[0]) then
      var ws := Words(s[1..]);
      assert forall c :: c in s[1..] ==> c in s;
      ws
    else
      var w := Run(s);
      var ws := Words(s[|w|..]);
      assert forall c :: c in s[|w|..] ==> c in s;
      assert forall i :: 0 <= i < |w| ==> w[i] == s[i];
      [w] + ws
  }

  /** Whitespace in front of a text yields no token. */
  lemma {:induction false} WordsSkipSpaces(sp: string, b: string)
    requires AllSpace(sp)
    ensures Words(sp + b) == Words(b)
  {
    if sp != [] {
      assert (sp + b)[0] == sp[0] && (sp + b)[1..] == sp[1..] + b;
      WordsSkipSpaces(sp[1..], b);
    } else {
      assert sp + b == b;
    }
  }

  /** A text of whitespace only yields no token at all. */
  lemma WordsOfSpaces(sp: string)
    requires AllSpace(sp)
    ensures Words(sp) == []
  {
    WordsSkipSpaces(sp, []);
    assert sp + [] == sp;
  }

  /** Any non-empty run of whitespace separates tokens as one space does: the tokens on
      either side are kept and nothing comes from the run itself. */
  lemma {:induction false} WordsSplit(a: string, sp: string, b: string)
    requires sp != [] && AllSpace(sp)
    ensures Words(a + sp + b) == Words(a) + Words(b)
    decreases |a|
  {
    var s := a + sp + b;
    if a == [] {
      assert s == sp + b;
      WordsSkipSpaces(sp, b);
    } else if IsSpace(a[0]) {
      assert s[0] == a[0] && s[1..] == a[1..] + sp + b;
      WordsSplit(a[1..], sp, b);
    } else {
      var w := Run(a);
      var rest := a[|w|..] + sp + b;
      assert a == w + a[|w|..];
      assert s == w + rest;
      assert rest[0] == if |w| < |a| then a[|w|] else sp[0];
      RunOfWord(w, rest);
      assert s[0] == a[0] && s[|w|..] == rest;
      WordsSplit(a[|w|..], sp, b);
    }
  }

  /** The token list `parseSlots` scans: parentheses blanked, then split on whitespace, so every
      token is non-empty and holds neither whitespace nor a parenthesis. */
  function Tokenize(text: string): (ts: seq<string>)
    ensures forall k :: 0 <= k < |ts| ==> ts[k] != [] && NoSpace(ts[k]) && '(' !in ts[k] && ')' !in ts[k]
  {
    Words(BlankParens(text))
  }

  /** The words joined by single spaces. */
  function Unwords(ws: seq<string>): string {
    if ws == [] then "" else if |ws| == 1 then ws[0] else ws[0] + " " + Unwords(ws[1..])
  }

  lemma RunOfWord(w: string, rest: string)
    requires NoSpace(w) && (rest == [] || IsSpace(rest[0]))
    ensures Run(w + rest) == w
    decreases |w|
  {
    if w != [] {
      assert (w + rest)[1..] == w[1..] + rest;
      RunOfWord(w[1..], rest);
    } else {
      assert w + rest == rest;
    }
  }

  /** Splitting words joined by spaces gives the words back. */
  lemma {:induction false} WordsUnwords(ws: seq<string>)
    requires forall k :: 0 <= k < |ws| ==> ws[k] != [] && NoSpace(ws[k])
    ensures Words(Unwords(ws)) == ws
  {
    if |ws| == 1 {
      var w := ws[0];
      RunOfWord(w, []);
      assert w + [] == w;
      assert w[|w|..] == [];
    } else if |ws| > 1 {
      var w, u := ws[0], Unwords(ws[1..]);
      var s := w + " " + u;
      assert s == w + (" " + u);
      RunOfWord(w, " " + u);
      assert s[0] == w[0];
      assert s[|w|..] == " " + u;
      assert (" " + u)[1..] == u;
      WordsUnwords(ws[1..]);
    }
  }

  /** Parentheses separate tokens exactly as a space does. */
  lemma ParensAreSpaces(a: string, b: string)
    ensures Tokenize(a + "(" + b) == Tokenize(a + " " + b)
    ensures Tokenize(a + ")" + b) == Tokenize(a + " " + b)
  {
    assert BlankParens(a + "(" + b) == BlankParens(a + " " + b);
    assert BlankParens(a + ")" + b) == BlankParens(a + " " + b);
  }

  // ---------------------------------------------------------------- numbers

  predicate IsDigit(c: char) {
    '0' <= c <= '9'
  }

  /** `/^\d+$/.test(t)`: a non-empty string of ASCII digits. */
  predicate IsDigits(t: string) {
    |t| > 0 && forall i :: 0 <= i < |t| ==> IsDigit(t[i])
  }

  /** `Number(t)` for a digit string: its decimal value (leading zeros allowed). */
  function DigitsValue(t: string): (v: nat)
    requires forall i :: 0 <= i < |t| ==> IsDigit(t[i])
    ensures v == 0 <==> forall i :: 0 <= i < |t| ==> t[i] == '0'
  {
    if t == [] then 0
    else
      var front := t[..|t| - 1];
      assert IsDigit(t[|t| - 1]);
      assert forall i :: 0 <= i < |front| ==> front[i] == t[i];
      10 * DigitsValue(front) + (t[|t| - 1] as int - '0' as int)
  }

  function DigitChar(d: nat): (c: char)
    requires d < 10
    ensures IsDigit(c) && c as int - '0' as int == d
  {
    (('0' as int) + d) as char
  }

  /** `String(n)` for a natural number: its decimal digits without leading zeros. */
  function NatToString(n: nat): (s: string)
    ensures IsDigits(s)
    ensures |s| > 1 ==> s[0] != '0'
  {
    if n < 10 then [DigitChar(n)] else NatToString(n / 10) + [DigitChar(n % 10)]
  }

  /** Reading back the decimal form of `n` gives `n`. */
  lemma {:induction false} DigitsRoundTrip(n: nat)
    ensures DigitsValue(NatToString(n)) == n
  {
    if n >= 10 {
      var s := NatToString(n);
      assert s[..|s| - 1] == NatToString(n / 10);
      DigitsRoundTrip(n / 10);
    }
  }

  // ---------------------------------------------------------------- search

  /** `toLowerCase` on one character, restricted to ASCII letters. */
  function LowerChar(c: char): char {
    if 'A' <= c <= 'Z' then (c as int + 32) as char else c
  }

  /** `toLowerCase` restricted to ASCII letters. */
  function Lower(s: string): (r: string)
    ensures |r| == |s| && forall i :: 0 <= i < |s| ==> r[i] == LowerChar(s[i])
    ensures forall i :: 0 <= i < |r| ==> !('A' <= r[i] <= 'Z')
    ensures forall i :: 0 <= i < |s| && !('A' <= s[i] <= 'Z') ==> r[i] == s[i]
  {
    seq(|s|, i requires 0 <= i < |s| => LowerChar(s[i]))
  }

  lemma LowerKeepsSpaces(s: string)
    ensures |Lower(s)| == |s|
    ensures forall i :: 0 <= i < |s| ==> (IsSpace(Lower(s)[i]) <==> IsSpace(s[i]))
  {
  }

  lemma {:induction false} SkipStartLower(s: string, i: nat)
    requires i <= |s|
    ensures SkipStart(Lower(s), i) == SkipStart(s, i)
    decreases |s| - i
  {
    LowerKeepsSpaces(s);
    if i < |s| && IsSpace(s[i]) {
      SkipStartLower(s, i + 1);
    }
  }

  lemma {:induction false} SkipEndLower(s: string, j: nat)
    requires j <= |s|
    ensures SkipEnd(Lower(s), j) == SkipEnd(s, j)
  {
    LowerKeepsSpaces(s);
    if j > 0 && IsSpace(s[j - 1]) {
      SkipEndLower(s, j - 1);
    }
  }

  /** Lowering and trimming commute: lowering changes no whitespace. */
  lemma TrimLower(s: string)
    ensures Trim(Lower(s)) == Lower(Trim(s))
  {
    SkipStartLower(s, 0);
    SkipEndLower(s, |s|);
    var i, k := SkipStart(s, 0), SkipEnd(s, |s|);
    if i < k {
      LowerSlice(s, i, k);
    }
  }

  lemma LowerSlice(s: string, i: nat, k: nat)
    requires i <= k <= |s|
    ensures Lower(s)[i..k] == Lower(s[i..k])
  {
    var a, b := Lower(s)[i..k], Lower(s[i..k]);
    assert |a| == |b|;
    forall m | 0 <= m < |a| ensures a[m] == b[m] {
      assert a[m] == LowerChar(s[i + m]) && s[i..k][m] == s[i + m];
    }
  }

  /** Lowering twice is lowering once. */
  lemma LowerIdempotent(s: string)
    ensures Lower(Lower(s)) == Lower(s)
  {
  }

  /** `hay.includes(needle)`: the empty needle is found everywhere, a longer one nowhere. */
  function Contains(hay: string, needle: string): (r: bool)
    ensures needle == [] ==> r
    ensures r ==> |needle| <= |hay|
  {
    assert needle == [] ==> needle <= hay[0..];
    exists i :: 0 <= i <= |hay| - |needle| && needle <= hay[i..]
  }

  /** A text contains every piece it is built around. */
  lemma ContainsInfix(a: string, needle: string, b: string)
    ensures Contains(a + needle + b, needle)
  {
    var hay := a + needle + b;
    assert hay[|a|..] == needle + b;
  }
}
