/**
 * `parseSlots`: turns a time description such as `월 1 2 화 3` or `(Mon 3 4) Wed. 5` into
 * one slot per weekday that received at least one period, with the periods ascending.
 *
 * The scan is specified by `CursorAt` (the day cursor after a prefix of the tokens) and
 * `PeriodsFor` (what that prefix pushed into one day's bucket); `SlotsOf` is the result.
 */
module SlotParser {
  import opened Wrappers
  import opened Lists
  import opened Text
  import opened Courses

  /** `dayTokenMap`: each spelling of a day, in Korean and in English with or without a period. */
  const DayTokenMap: map<string, Day> := map[
    "월" := Mon, "화" := Tue, "수" := Wed, "목" := Thu, "금" := Fri,
    "Mon" := Mon, "Mon." := Mon, "Tue" := Tue, "Tue." := Tue, "Wed" := Wed, "Wed." := Wed,
    "Thu" := Thu, "Thu." := Thu, "Thur" := Thu, "Thur." := Thu, "Fri" := Fri, "Fri." := Fri]

  /** The day a one-character token names. */
  function KoreanDay(c: char): Option<Day> {
    if c == '월' then Some(Mon)
    else if c == '화' then Some(Tue)
    else if c == '수' then Some(Wed)
    else if c == '목' then Some(Thu)
    else if c == '금' then Some(Fri)
    else None
  }

  /** The day whose English abbreviation starts `t`, if `t` has at least three characters. */
  function EnglishStem(t: string): Option<Day>
    requires |t| >= 3
  {
    if t[0] == 'M' && t[1] == 'o' && t[2] == 'n' then Some(Mon)
    else if t[0] == 'T' && t[1] == 'u' && t[2] == 'e' then Some(Tue)
    else if t[0] == 'W' && t[1] == 'e' && t[2] == 'd' then Some(Wed)
    else if t[0] == 'T' && t[1] == 'h' && t[2] == 'u' then Some(Thu)
    else if t[0] == 'F' && t[1] == 'r' && t[2] == 'i' then Some(Fri)
    else None
  }

  /**
   * `dayTokenMap[token]`, decided character by character: a Korean day glyph alone, or an
   * English abbreviation followed by nothing or a period (`Thu` also by `r` or `r.`).
   * It agrees with the table on every token.
   */
  function DayToken(t: string): (r: Option<Day>)
    ensures r == if t in DayTokenMap then Some(DayTokenMap[t]) else None
  {
    if |t| == 1 then
      assert t == [t[0]];
      KoreanDay(t[0])
    else if |t| < 3 || |t| > 5 then None
    else
      assert |t| == 3 ==> t == [t[0], t[1], t[2]] && t[3..] == [];
      assert |t| == 4 ==> t == [t[0], t[1], t[2], t[3]] && t[3..] == [t[3]];
      assert |t| == 5 ==> t == [t[0], t[1], t[2], t[3], t[4]] && t[3..] == [t[3], t[4]];
      match EnglishStem(t)
      case None => None
      case Some(d) =>
        var rest := t[3..];
        if rest == [] || rest == "." then Some(d)
        else if d == Thu && (rest == "r" || rest == "r.") then Some(d)
        else None
  }

  /** The day glyph the grid and the course list print is read back as the same day. */
  lemma GlyphIsDayToken(d: Day)
    ensures DayToken([Glyph(d)]) == Some(d)
  {
  }

  /** What the scan does with one token: move the day cursor, push a number, or skip it. */
  datatype Token = DayName(day: Day) | Number(value: nat) | Noise

  /** A token as `parseSlots` sees it: a day name first, else a digit string, else noise. */
  function Classify(t: string): (k: Token)
    ensures k.DayName? <==> t in DayTokenMap
    ensures k.DayName? ==> k.day == DayTokenMap[t]
    ensures k.Number? <==> t !in DayTokenMap && IsDigits(t)
    ensures k.Number? ==> k.value == DigitsValue(t)
  {
    match DayToken(t)
    case Some(d) => DayName(d)
    case None => if IsDigits(t) then Number(DigitsValue(t)) else Noise
  }

  function Kinds(ts: seq<string>): (ks: seq<Token>)
    ensures |ks| == |ts| && forall i :: 0 <= i < |ts| ==> ks[i] == Classify(ts[i])
  {
    seq(|ts|, i requires 0 <= i < |ts| => Classify(ts[i]))
  }

  // ---------------------------------------------------------------- specification of the scan

  /** The cursor after one token: a day name moves it to that day, anything else leaves it. */
  function Advance(cursor: Option<Day>, k: Token): Option<Day> {
    if k.DayName? then Some(k.day) else cursor
  }

  /** What one token pushes into `d`'s bucket: its number, when the cursor is on `d`. */
  function Push(cursor: Option<Day>, k: Token, d: Day): seq<nat> {
    if k.Number? && cursor == Some(d) then [k.value] else []
  }

  /** `currentDay` after scanning `ks`: the day of the last day name, `None` before the first. */
  function CursorAt(ks: seq<Token>): Option<Day> {
    if ks == [] then None else Advance(CursorAt(ks[..|ks| - 1]), ks[|ks| - 1])
  }

  /** What the last token of a non-empty `ks` pushes into `d`'s bucket. */
  function Pushed(ks: seq<Token>, d: Day): seq<nat>
    requires ks != []
  {
    Push(CursorAt(ks[..|ks| - 1]), ks[|ks| - 1], d)
  }

  /** `buckets[d]` after scanning `ks`: the numbers read while the cursor was on `d`, in reading order. */
  function PeriodsFor(ks: seq<Token>, d: Day): seq<nat> {
    if ks == [] then [] else PeriodsFor(ks[..|ks| - 1], d) + Pushed(ks, d)
  }

  /** All five buckets after scanning `ks`. */
  function BucketsOf(ks: seq<Token>): (b: map<Day, seq<nat>>)
    ensures forall d :: d in b && b[d] == PeriodsFor(ks, d)
  {
    EveryDayListed();
    map d: Day | d in DayOrder :: PeriodsFor(ks, d)
  }

  // ---------------------------------------------------------------- result

  /** Each day's index in `DayOrder` is below the next one's. */
  predicate Ascending(days: seq<Day>) {
    forall k, l :: 0 <= k < l < |days| ==> DayIndex(days[k]) < DayIndex(days[l])
  }

  lemma DayOrderAscending()
    ensures Ascending(DayOrder)
  {
  }

  /** The slots list their days in ascending order, so no day twice. */
  predicate DaysAscending(r: seq<Slot>) {
    forall k, l :: 0 <= k < l < |r| ==> DayIndex(r[k].day) < DayIndex(r[l].day)
  }

  /** Some slot of `r` is on day `d`. */
  predicate HasDay(r: seq<Slot>, d: Day) {
    exists k :: 0 <= k < |r| && r[k].day == d
  }

  /**
   * `days.map(day => ({ day, periods: buckets[day].sort(…) })).filter(slot => slot.periods.length > 0)`;
   * `parseSlots` calls it with the keys of its buckets record, which are `DayOrder`.
   */
  function Collect(buckets: map<Day, seq<nat>>, days: seq<Day>): (r: seq<Slot>)
    requires forall e :: e in buckets
    ensures forall k :: 0 <= k < |r| ==> r[k].day in days && buckets[r[k].day] != []
  {
    if days == [] then []
    else
      var ps := SortAsc(buckets[days[0]]);
      var rest := Collect(buckets, days[1..]);
      if buckets[days[0]] != [] then [Slot(days[0], ps)] + rest else rest
  }

  /** A listed day appears in the result exactly when its bucket is non-empty. */
  lemma {:induction false} CollectDays(buckets: map<Day, seq<nat>>, days: seq<Day>, d: Day)
    requires forall e :: e in buckets
    requires d in days
    ensures buckets[d] != [] <==> HasDay(Collect(buckets, days), d)
  {
    var r := Collect(buckets, days);
    var rest := Collect(buckets, days[1..]);
    if buckets[days[0]] == [] {
      assert r == rest;
    } else {
      assert r[0].day == days[0] && r[1..] == rest;
    }
    if days[0] == d {
      if buckets[d] != [] {
        assert r[0].day == d;
      }
    } else {
      CollectDays(buckets, days[1..], d);
      if buckets[days[0]] != [] && HasDay(rest, d) {
        var k :| 0 <= k < |rest| && rest[k].day == d;
        assert r[k + 1] == rest[k];
      }
    }
  }

  /** Collecting over days in ascending order gives slots in ascending order. */
  lemma {:induction false} CollectOrder(buckets: map<Day, seq<nat>>, days: seq<Day>)
    requires forall e :: e in buckets
    requires Ascending(days)
    ensures DaysAscending(Collect(buckets, days))
  {
    if days != [] {
      var r := Collect(buckets, days);
      var rest := Collect(buckets, days[1..]);
      CollectOrder(buckets, days[1..]);
      if buckets[days[0]] != [] {
        assert r[0].day == days[0] && r[1..] == rest;
        forall k, l | 0 <= k < l < |r| ensures DayIndex(r[k].day) < DayIndex(r[l].day) {
          assert r[l] == rest[l - 1];
          if k == 0 {
            var j :| 0 <= j < |days[1..]| && days[1..][j] == rest[l - 1].day;
            assert days[j + 1] == rest[l - 1].day;
          } else {
            assert r[k] == rest[k - 1];
          }
        }
      }
    }
  }

  /** The slots that a scan of the classified tokens `ks` yields. */
  function SlotsFrom(ks: seq<Token>): seq<Slot> {
    Collect(BucketsOf(ks), DayOrder)
  }

  /** The value of `parseSlots` on the tokens of a description. */
  function SlotsOf(ts: seq<string>): seq<Slot> {
    SlotsFrom(Kinds(ts))
  }

  /** One more token advances the cursor. */
  lemma CursorStep(ks: seq<Token>, i: nat)
    requires i < |ks|
    ensures CursorAt(ks[..i + 1]) == Advance(CursorAt(ks[..i]), ks[i])
  {
    assert ks[..i + 1][..i] == ks[..i];
  }

  /** One more token appends what it pushes to each bucket. */
  lemma PeriodsStep(ks: seq<Token>, i: nat, d: Day)
    requires i < |ks|
    ensures PeriodsFor(ks[..i + 1], d) == PeriodsFor(ks[..i], d) + Push(CursorAt(ks[..i]), ks[i], d)
  {
    assert ks[..i + 1][..i] == ks[..i];
  }

  /**
   * The `tokens.forEach` callback of `parseSlots`: a day name moves the cursor; a number is
   * pushed into the cursor's bucket when there is a cursor; anything else is skipped.
   */
  method Visit(token: string, currentDay: Option<Day>, buckets: map<Day, seq<nat>>)
    returns (currentDay': Option<Day>, buckets': map<Day, seq<nat>>)
    requires forall e :: e in buckets
    ensures currentDay' == Advance(currentDay, Classify(token))
    ensures forall d :: d in buckets' && buckets'[d] == buckets[d] + Push(currentDay, Classify(token), d)
  {
    currentDay', buckets' := currentDay, buckets;
    var day := DayToken(token);
    if day.Some? {
      currentDay' := day;
    } else if IsDigits(token) && currentDay.Some? {
      var d := currentDay.value;
      buckets' := buckets[d := buckets[d] + [DigitsValue(token)]];
    }
  }

  /** The scan of `parseSlots` over all tokens, from an empty cursor and five empty buckets. */
  method Scan(tokens: seq<string>) returns (buckets: map<Day, seq<nat>>)
    ensures forall d :: d in buckets && buckets[d] == PeriodsFor(Kinds(tokens), d)
  {
    ghost var ks := Kinds(tokens);
    EveryDayListed();
    buckets := map d: Day | d in DayOrder :: [];
    var currentDay: Option<Day> := None;
    var i := 0;
    assert ks[..0] == [];
    while i < |tokens|
      invariant 0 <= i <= |tokens|
      invariant currentDay == CursorAt(ks[..i])
      invariant forall d :: d in buckets && buckets[d] == PeriodsFor(ks[..i], d)
    {
      CursorStep(ks, i);
      forall d ensures PeriodsFor(ks[..i + 1], d) == PeriodsFor(ks[..i], d) + Push(currentDay, ks[i], d) {
        PeriodsStep(ks, i, d);
      }
      currentDay, buckets := Visit(tokens[i], currentDay, buckets);
      i := i + 1;
    }
    assert ks[..|tokens|] == ks;
  }

  /** Five buckets holding what the tokens pushed give the parse of those tokens. */
  lemma BucketsExt(b: map<Day, seq<nat>>, ts: seq<string>)
    requires forall d :: d in b && b[d] == PeriodsFor(Kinds(ts), d)
    ensures Collect(b, DayOrder) == SlotsOf(ts)
  {
    assert b == BucketsOf(Kinds(ts));
  }

  /** `parseSlots(text)`: tokenize, scan, then list the non-empty buckets in day order, sorted. */
  method ParseSlots(text: string) returns (slots: seq<Slot>)
    ensures slots == SlotsOf(Tokenize(text))
  {
    var tokens := Tokenize(text);
    var buckets := Scan(tokens);
    BucketsExt(buckets, tokens);
    slots := Collect(buckets, DayOrder);
  }

  // ---------------------------------------------------------------- properties

  /** A slot of a parse: non-empty, ascending, and holding exactly the values `received`. */
  predicate SlotHolds(s: Slot, received: seq<nat>) {
    s.periods != [] && Sorted(s.periods) && multiset(s.periods) == multiset(received)
  }

  /** Each collected slot holds its bucket's values, ascending. */
  lemma {:induction false} CollectSorted(b: map<Day, seq<nat>>, days: seq<Day>)
    requires forall e :: e in b
    ensures forall k :: 0 <= k < |Collect(b, days)| ==> SlotHolds(Collect(b, days)[k], b[Collect(b, days)[k].day])
  {
    if days != [] {
      var r := Collect(b, days);
      var rest := Collect(b, days[1..]);
      var ps := SortAsc(b[days[0]]);
      CollectSorted(b, days[1..]);
      SortAscSpec(b[days[0]]);
      if b[days[0]] != [] {
        assert r == [Slot(days[0], ps)] + rest;
        assert r[0] == Slot(days[0], ps);
        forall k | 0 < k < |r| ensures r[k] == rest[k - 1] {}
      } else {
        assert r == rest;
      }
    }
  }

  /**
   * Shape of every parse: each slot has a non-empty ascending period list holding exactly the
   * numbers its day received, days come in the order 월 화 수 목 금 with none repeated, and a
   * day is present exactly when it received a number.
   */
  lemma ParseShape(ks: seq<Token>, d: Day)
    ensures forall k :: 0 <= k < |SlotsFrom(ks)| ==> SlotHolds(SlotsFrom(ks)[k], PeriodsFor(ks, SlotsFrom(ks)[k].day))
    ensures DaysAscending(SlotsFrom(ks))
    ensures HasDay(SlotsFrom(ks), d) <==> PeriodsFor(ks, d) != []
  {
    var b := BucketsOf(ks);
    CollectSorted(b, DayOrder);
    DayOrderAscending();
    CollectOrder(b, DayOrder);
    EveryDayListed();
    CollectDays(b, DayOrder, d);
  }

  /** A number lands in a day's bucket exactly when it is read while the cursor is on that day. */
  lemma {:induction false} PeriodsForExactly(ks: seq<Token>, d: Day, x: nat)
    ensures x in PeriodsFor(ks, d) <==>
      exists i :: 0 <= i < |ks| && ks[i] == Number(x) && CursorAt(ks[..i]) == Some(d)
  {
    if ks != [] {
      var pre := ks[..|ks| - 1];
      PeriodsForExactly(pre, d, x);
      forall i | 0 <= i < |pre| ensures pre[i] == ks[i] && pre[..i] == ks[..i] {}
    }
  }

  predicate Dayless(ks: seq<Token>) {
    forall k :: 0 <= k < |ks| ==> !ks[k].DayName?
  }

  lemma {:induction false} DaylessCursor(pre: seq<Token>)
    requires Dayless(pre)
    ensures CursorAt(pre) == None
  {
    if pre != [] {
      DaylessCursor(pre[..|pre| - 1]);
    }
  }

  lemma {:induction false} DaylessPeriods(pre: seq<Token>, d: Day)
    requires Dayless(pre)
    ensures PeriodsFor(pre, d) == []
  {
    if pre != [] {
      DaylessPeriods(pre[..|pre| - 1], d);
      DaylessCursor(pre[..|pre| - 1]);
    }
  }

  /** Tokens before the first day name leave the cursor where it would be without them. */
  lemma {:induction false} LeadingCursor(pre: seq<Token>, rest: seq<Token>)
    requires Dayless(pre)
    ensures CursorAt(pre + rest) == CursorAt(rest)
    decreases |rest|
  {
    if rest == [] {
      assert pre + rest == pre;
      DaylessCursor(pre);
    } else {
      var r' := rest[..|rest| - 1];
      assert (pre + rest)[..|pre + rest| - 1] == pre + r';
      LeadingCursor(pre, r');
    }
  }

  /** Tokens before the first day name push nothing. */
  lemma {:induction false} LeadingPeriods(pre: seq<Token>, rest: seq<Token>, d: Day)
    requires Dayless(pre)
    ensures PeriodsFor(pre + rest, d) == PeriodsFor(rest, d)
    decreases |rest|
  {
    if rest == [] {
      assert pre + rest == pre;
      DaylessPeriods(pre, d);
    } else {
      var r' := rest[..|rest| - 1];
      assert (pre + rest)[..|pre + rest| - 1] == pre + r';
      LeadingPeriods(pre, r', d);
      LeadingCursor(pre, r');
      assert Pushed(pre + rest, d) == Pushed(rest, d);
    }
  }

  /** Numbers (and any other tokens) seen before the first day name are dropped. */
  lemma LeadingTokensDropped(pre: seq<string>, rest: seq<string>)
    requires forall k :: 0 <= k < |pre| ==> DayToken(pre[k]).None?
    ensures SlotsOf(pre + rest) == SlotsOf(rest)
  {
    assert Kinds(pre + rest) == Kinds(pre) + Kinds(rest);
    forall d ensures PeriodsFor(Kinds(pre + rest), d) == PeriodsFor(Kinds(rest), d) {
      LeadingPeriods(Kinds(pre), Kinds(rest), d);
    }
    assert BucketsOf(Kinds(pre + rest)) == BucketsOf(Kinds(rest));
  }

  /** A noise token does not move the cursor. */
  lemma {:induction false} NoiseCursor(a: seq<Token>, b: seq<Token>)
    ensures CursorAt(a + [Noise] + b) == CursorAt(a + b)
    decreases |b|
  {
    if b == [] {
      assert a + [Noise] + b == a + [Noise] && (a + [Noise])[..|a|] == a && a + b == a;
    } else {
      var b' := b[..|b| - 1];
      assert (a + [Noise] + b)[..|a + [Noise] + b| - 1] == a + [Noise] + b';
      assert (a + b)[..|a + b| - 1] == a + b';
      NoiseCursor(a, b');
    }
  }

  /** A noise token pushes nothing. */
  lemma {:induction false} NoisePeriods(a: seq<Token>, b: seq<Token>, d: Day)
    ensures PeriodsFor(a + [Noise] + b, d) == PeriodsFor(a + b, d)
    decreases |b|
  {
    var x, y := a + [Noise] + b, a + b;
    if b == [] {
      assert x[..|x| - 1] == a && x[|x| - 1] == Noise && y == a;
      assert Pushed(x, d) == [];
    } else {
      var b' := b[..|b| - 1];
      assert x[..|x| - 1] == a + [Noise] + b' && y[..|y| - 1] == a + b';
      assert x[|x| - 1] == y[|y| - 1];
      NoisePeriods(a, b', d);
      NoiseCursor(a, b');
      assert Pushed(x, d) == Pushed(y, d);
    }
  }

  /** A token that is neither a day name nor a number can be removed without changing the result. */
  lemma NoiseIgnored(a: seq<string>, t: string, b: seq<string>)
    requires DayToken(t).None? && !IsDigits(t)
    ensures SlotsOf(a + [t] + b) == SlotsOf(a + b)
  {
    assert Kinds(a + [t] + b) == Kinds(a) + [Noise] + Kinds(b);
    assert Kinds(a + b) == Kinds(a) + Kinds(b);
    forall d ensures PeriodsFor(Kinds(a + [t] + b), d) == PeriodsFor(Kinds(a + b), d) {
      NoisePeriods(Kinds(a), Kinds(b), d);
    }
    assert BucketsOf(Kinds(a + [t] + b)) == BucketsOf(Kinds(a + b));
  }

  /** The buckets after scanning `월 1 2 화 3`. */
  lemma ExampleKoreanBuckets(d: Day)
    ensures PeriodsFor([DayName(Mon), Number(1), Number(2), DayName(Tue), Number(3)], d)
      == if d == Mon then [1, 2] else if d == Tue then [3] else []
  {
    var ks := [DayName(Mon), Number(1), Number(2), DayName(Tue), Number(3)];
    var k1, k2, k3, k4 := ks[..1], ks[..2], ks[..3], ks[..4];
    assert k1[..0] == [] && k2[..1] == k1 && k3[..2] == k2 && k4[..3] == k3 && ks[..4] == k4;
    assert CursorAt(k1) == Some(Mon) && CursorAt(k2) == Some(Mon) && CursorAt(k3) == Some(Mon);
    assert CursorAt(k4) == Some(Tue);
    assert PeriodsFor(k1, d) == [];
    assert PeriodsFor(k2, d) == if d == Mon then [1] else [];
    assert PeriodsFor(k3, d) == if d == Mon then [1, 2] else [];
    assert PeriodsFor(k4, d) == if d == Mon then [1, 2] else [];
  }

  /** `월 [1, 2]` and `화 [3]` collect to two slots. */
  lemma ExampleKoreanCollect(b: map<Day, seq<nat>>)
    requires forall e :: e in b
    requires b[Mon] == [1, 2] && b[Tue] == [3] && b[Wed] == [] && b[Thu] == [] && b[Fri] == []
    ensures Collect(b, DayOrder) == [Slot(Mon, [1, 2]), Slot(Tue, [3])]
  {
    assert SortAsc([1, 2]) == [1, 2] && SortAsc([3]) == [3];
    assert Collect(b, DayOrder[2..]) == [] by {
      assert DayOrder[2..][1..] == DayOrder[3..] && DayOrder[3..][1..] == DayOrder[4..];
      assert Collect(b, DayOrder[4..]) == [];
    }
    assert DayOrder[1..][1..] == DayOrder[2..];
  }

  /** `월 1 2 화 3` splits into its five tokens. */
  lemma ExampleKoreanTokens()
    ensures Tokenize("월 1 2 화 3") == ["월", "1", "2", "화", "3"]
  {
    var ts: seq<string> := ["월", "1", "2", "화", "3"];
    assert BlankParens("월 1 2 화 3") == "월 1 2 화 3";
    assert Unwords(ts) == "월 1 2 화 3";
    WordsUnwords(ts);
  }

  /** The five tokens of `월 1 2 화 3` read as two day names and three numbers. */
  lemma ExampleKoreanKinds()
    ensures Kinds(["월", "1", "2", "화", "3"]) == [DayName(Mon), Number(1), Number(2), DayName(Tue), Number(3)]
  {
    assert Classify("월") == DayName(Mon) && Classify("화") == DayName(Tue);
    assert DigitsValue("1") == 1 && DigitsValue("2") == 2 && DigitsValue("3") == 3;
    assert Classify("1") == Number(1) && Classify("2") == Number(2) && Classify("3") == Number(3);
  }

  /** `월 1 2 화 3` gives 월 [1, 2] and 화 [3]. */
  lemma ExampleKorean()
    ensures SlotsOf(Tokenize("월 1 2 화 3")) == [Slot(Mon, [1, 2]), Slot(Tue, [3])]
  {
    var ts: seq<string> := ["월", "1", "2", "화", "3"];
    ExampleKoreanTokens();
    var ks := [DayName(Mon), Number(1), Number(2), DayName(Tue), Number(3)];
    ExampleKoreanKinds();
    ExampleKoreanBuckets(Mon);
    ExampleKoreanBuckets(Tue);
    ExampleKoreanBuckets(Wed);
    ExampleKoreanBuckets(Thu);
    ExampleKoreanBuckets(Fri);
    ExampleKoreanCollect(BucketsOf(ks));
  }
}
