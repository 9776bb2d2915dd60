/** The cron matcher: field texts, the items they list, and the stepping loops that test them. */
module Cron {
  import opened ByteStrings
  import opened Seqs

  const COMMA: byte := 44
  const STAR: byte := 42
  const SLASH: byte := 47
  const PLUS: byte := 43
  const MINUS: byte := 45

  // ----- the texts -----

  /** strings.Split(s, ",") */
  function Split(s: Bytes): (items: seq<Bytes>)
    ensures |items| > 0
  {
    if s == [] then [[]]
    else
      var rest := Split(s[1..]);
      if s[0] == COMMA then [[]] + rest else [[s[0]] + rest[0]] + rest[1..]
  }

  function Join(items: seq<Bytes>): Bytes
    requires |items| > 0
  {
    if |items| == 1 then items[0] else items[0] + [COMMA] + Join(items[1..])
  }

  ghost predicate NoCommas(items: seq<Bytes>) { forall i :: 0 <= i < |items| ==> COMMA !in items[i] }

  lemma {:induction false} ItemsHaveNoComma(s: Bytes)
    ensures NoCommas(Split(s))
  {
    if s != [] {
      ItemsHaveNoComma(s[1..]);
    }
  }

  /** The items, joined by commas, are the field again. */
  lemma {:induction false} JoinOfSplit(s: Bytes)
    ensures Join(Split(s)) == s
  {
    if s != [] {
      var rest := Split(s[1..]);
      JoinOfSplit(s[1..]);
      if s[0] == COMMA {
        assert ([[]] + rest)[1..] == rest;
        assert Join(Split(s)) == [] + [COMMA] + Join(rest);
      } else {
        var items := Split(s);
        assert items[1..] == rest[1..];
        if |rest| > 1 {
          assert items[0] + [COMMA] + Join(items[1..]) == [s[0]] + (rest[0] + [COMMA] + Join(rest[1..]));
        }
      }
    }
  }

  /** Listing two fields side by side lists the items of both. */
  lemma {:induction false} SplitOfList(a: Bytes, b: Bytes)
    ensures Split(a + [COMMA] + b) == Split(a) + Split(b)
  {
    var s := a + [COMMA] + b;
    if a == [] {
      assert s == [COMMA] + b && s[1..] == b;
    } else {
      assert s[1..] == a[1..] + [COMMA] + b;
      SplitOfList(a[1..], b);
      var rest := Split(a[1..]);
      if a[0] == COMMA {
        ConcatAssoc([[]], rest, Split(b));
      } else {
        assert (rest + Split(b))[1..] == rest[1..] + Split(b);
        ConcatAssoc([[a[0]] + rest[0]], rest[1..], Split(b));
      }
    }
  }

  lemma {:induction false} SplitOfItem(item: Bytes)
    requires COMMA !in item
    ensures Split(item) == [item]
  {
    if item != [] {
      SplitOfItem(item[1..]);
      assert item == [item[0]] + item[1..];
    }
  }

  lemma {:induction false} SplitOfJoin(items: seq<Bytes>)
    requires |items| > 0 && NoCommas(items)
    ensures Split(Join(items)) == items
  {
    SplitOfItem(items[0]);
    if |items| == 1 {
      assert items == [items[0]];
    } else {
      SplitOfJoin(items[1..]);
      SplitOfList(items[0], Join(items[1..]));
      assert items == [items[0]] + items[1..];
    }
  }

  /** The items of a field are the one way to write it as texts without commas, joined by commas. */
  lemma SplitIsExact(s: Bytes, items: seq<Bytes>)
    requires |items| > 0
    ensures items == Split(s) <==> Join(items) == s && NoCommas(items)
  {
    JoinOfSplit(s);
    ItemsHaveNoComma(s);
    if NoCommas(items) {
      SplitOfJoin(items);
    }
  }

  /** strconv.Atoi: an optional sign, digits, and the range of a 64-bit int. */
  function Atoi(s: Bytes): Option<int> {
    var signed := s != [] && (s[0] == PLUS || s[0] == MINUS);
    var digits := if signed then s[1..] else s;
    if digits == [] || !AllDigits(digits) then None
    else
      var n: int := DigitsValue(digits);
      if s[0] == MINUS then (if n <= TWO63 then Some(-n) else None)
      else (if n < TWO63 then Some(n) else None)
  }

  /** A match of the expression \*\/([0-9]+) starts at i. */
  predicate StepAt(s: Bytes, i: nat) {
    i + 2 < |s| && s[i] == STAR && s[i + 1] == SLASH && IsDigit(s[i + 2])
  }

  function LeftmostStep(s: Bytes, i: nat): (r: Option<nat>)
    ensures r.None? ==> forall j :: i <= j ==> !StepAt(s, j)
    ensures r.Some? ==> i <= r.value && StepAt(s, r.value) && forall j :: i <= j < r.value ==> !StepAt(s, j)
    decreases |s| - i
  {
    if i >= |s| then None
    else if StepAt(s, i) then Some(i)
    else LeftmostStep(s, i + 1)
  }

  /** The longest run of digits s starts with. */
  function LeadingDigits(s: Bytes): (d: Bytes)
    ensures d <= s && AllDigits(d) && (|d| < |s| ==> !IsDigit(s[|d|]))
  {
    if s == [] || !IsDigit(s[0]) then [] else [s[0]] + LeadingDigits(s[1..])
  }

  /** The step of an item: the number captured by the leftmost match, if it is a valid int. */
  function StepOf(item: Bytes): Option<int> {
    match LeftmostStep(item, 0)
    case None => None
    case Some(i) => Atoi(LeadingDigits(item[i + 2..]))
  }

  lemma StepRange(item: Bytes)
    ensures StepOf(item).Some? ==> 0 <= StepOf(item).value < TWO63
  {
    if LeftmostStep(item, 0).Some? {
      var d := LeadingDigits(item[LeftmostStep(item, 0).value + 2..]);
      assert d != [] ==> IsDigit(d[0]);
    }
  }

  // ----- what a field means -----

  /** base is the first value of the field: 1 for months, 0 for the others. */
  predicate ItemMatches(item: Bytes, value: int, base: int) {
    || item == [STAR]
    || Atoi(item) == Some(value)
    || (StepOf(item).Some? && (StepOf(item).value == 0 || (value - base) % StepOf(item).value == 0))
  }

  predicate SomeItemMatches(items: seq<Bytes>, value: int, base: int) {
    exists i :: 0 <= i < |items| && ItemMatches(items[i], value, base)
  }

  predicate FieldMatches(field: Bytes, value: int, base: int) {
    field == [] || SomeItemMatches(Split(field), value, base)
  }

  // ----- the loops -----

  /** 64-bit addition. */
  function Add64(a: int, b: int): int {
    var r := a + b;
    if r >= TWO63 then r - TWO64 else if r < -TWO63 then r + TWO64 else r
  }

  /** The stepping loop: it terminates for every step, even where the month counter wraps
      around, and finds the value exactly when the value is a whole number of steps away. */
  method StepReaches(value: int, base: int, limit: int, n: int) returns (found: bool)
    requires 0 <= base <= 1 && base <= value < limit <= 60 && 0 <= n < TWO63
    ensures found <==> n == 0 || (value - base) % n == 0
  {
    var check := base;
    found := false;
    ghost var wrapped := false;
    while check < limit
      invariant !found
      invariant n == 0 ==> check == base && !wrapped
      invariant !wrapped ==> base <= check && (n > 0 ==> (check - base) % n == 0)
      invariant !wrapped && n > 0 && (value - base) % n == 0 ==> check <= value
      invariant wrapped ==> n == TWO63 - 1 && (value - base) % n != 0
      invariant wrapped ==> check == -TWO63 || check == -1 || check == TWO63 - 2
      decreases if !wrapped then limit - check + 3 else if check == -TWO63 then 2 else if check == -1 then 1 else 0
    {
      if value == check || n < 1 {
        found := true;
        break;
      }
      if !wrapped {
        StepForward(value, base, check, n);
        if check + n >= TWO63 {
          WrapMisses(value, base, check, n);
          wrapped := true;
        }
      }
      check := Add64(check, n);
    }
  }

  lemma StepForward(value: int, base: int, check: int, n: int)
    requires n > 0 && base <= check && check != value && (check - base) % n == 0
    ensures (check + n - base) % n == 0
    ensures (value - base) % n == 0 && check <= value ==> check + n <= value
  {
    var q := (check - base) / n;
    assert check - base == q * n;
    MultipleMod(q + 1, n);
    assert check + n - base == (q + 1) * n;
    if (value - base) % n == 0 && check <= value {
      var p := (value - base) / n;
      assert value - base == p * n;
      MulCancel(q, p, n);
      MulMonotone(q + 1, p, n);
    }
  }

  lemma MulMonotone(a: int, b: int, n: int)
    requires a <= b && n > 0
    ensures a * n <= b * n
  {
  }

  lemma MulCancel(a: int, b: int, n: int)
    requires n > 0 && a * n < b * n
    ensures a < b
  {
  }

  lemma MultipleMod(q: int, n: int)
    requires n > 0
    ensures (q * n) % n == 0
  {
    var d, r := (q * n) / n, (q * n) % n;
    assert r == (q - d) * n;
    if q - d > 0 {
      MulMonotone(1, q - d, n);
    } else {
      MulMonotone(q - d, 0, n);
    }
  }

  /** The counter can only wrap around from 1 with the largest step. */
  lemma WrapMisses(value: int, base: int, check: int, n: int)
    requires 0 <= base <= 1 && base <= value < 60 && base <= check < 60 && value != check
    requires 0 < n < TWO63 && check + n >= TWO63 && (check - base) % n == 0
    requires (value - base) % n == 0 ==> check <= value
    ensures n == TWO63 - 1 && check == 1 && (value - base) % n != 0
  {
    SmallMod(check - base, n);
    SmallMod(value - base, n);
  }

  lemma SmallMod(x: int, n: int)
    requires 0 <= x < n
    ensures x % n == x
  {
  }

  method MatchField(field: Bytes, value: int, base: int, limit: int) returns (found: bool)
    requires 0 <= base <= 1 && base <= value < limit <= 60
    ensures found <==> FieldMatches(field, value, base)
  {
    if field == [STAR] || field == [] {
      if field != [] {
        SplitWithoutComma(field);
        assert ItemMatches(Split(field)[0], value, base);
      }
      return true;
    }
    found := false;
    var items := Split(field);
    var i := 0;
    while i < |items|
      invariant 0 <= i <= |items|
      invariant found <==> SomeItemMatches(items[..i], value, base)
    {
      var v := items[i];
      OneMoreItem(items, i, value, base);
      if v == [STAR] {
        return true;
      }
      var m := Atoi(v);
      if m.Some? && value == m.value {
        return true;
      }
      var div := StepOf(v);
      StepRange(v);
      if div.Some? {
        var hit := StepReaches(value, base, limit, div.value);
        if hit {
          found := true;
        }
      }
      i := i + 1;
    }
    assert items[..|items|] == items;
  }

  lemma OneMoreItem(items: seq<Bytes>, i: nat, value: int, base: int)
    requires i < |items|
    ensures SomeItemMatches(items[..i + 1], value, base)
            <==> SomeItemMatches(items[..i], value, base) || ItemMatches(items[i], value, base)
    ensures ItemMatches(items[i], value, base) ==> SomeItemMatches(items, value, base)
  {
    if SomeItemMatches(items[..i], value, base) {
      var j :| 0 <= j < i && ItemMatches(items[..i][j], value, base);
      assert items[..i + 1][j] == items[..i][j];
    }
    if ItemMatches(items[i], value, base) {
      assert items[..i + 1][i] == items[i];
    }
    if SomeItemMatches(items[..i + 1], value, base) {
      var j :| 0 <= j < i + 1 && ItemMatches(items[..i + 1][j], value, base);
      assert j < i ==> items[..i][j] == items[..i + 1][j];
    }
  }

  datatype Entry = Entry(minute: Bytes, hour: Bytes, day: Bytes, month: Bytes, weekday: Bytes)
  datatype Moment = Moment(minute: int, hour: int, day: int, month: int, weekday: int)

  predicate ValidMoment(t: Moment) {
    0 <= t.minute < 60 && 0 <= t.hour < 24 && 1 <= t.day <= 31 && 1 <= t.month <= 12 && 0 <= t.weekday < 7
  }

  /** checkCron at the UTC time t: all five fields match. */
  method CheckCron(cron: Entry, t: Moment) returns (due: bool)
    requires ValidMoment(t)
    ensures due <==>
              && FieldMatches(cron.minute, t.minute, 0)
              && FieldMatches(cron.hour, t.hour, 0)
              && FieldMatches(cron.day, t.day, 0)
              && FieldMatches(cron.month, t.month, 1)
              && FieldMatches(cron.weekday, t.weekday, 0)
  {
    due := MatchField(cron.minute, t.minute, 0, 60);
    if !due { return; }
    due := MatchField(cron.hour, t.hour, 0, 24);
    if !due { return; }
    due := MatchField(cron.day, t.day, 0, 60);
    if !due { return; }
    due := MatchField(cron.month, t.month, 1, 13);
    if !due { return; }
    due := MatchField(cron.weekday, t.weekday, 0, 7);
  }

  // ----- the documented forms of a field -----

  lemma {:induction false} LeadingDigitsOfDigits(d: Bytes)
    requires AllDigits(d)
    ensures LeadingDigits(d) == d
  {
    if d != [] {
      LeadingDigitsOfDigits(d[1..]);
    }
  }

  lemma {:induction false} SplitWithoutComma(s: Bytes)
    requires COMMA !in s
    ensures Split(s) == [s]
  {
    if s != [] {
      SplitWithoutComma(s[1..]);
      assert [s[0]] + s[1..] == s;
    }
  }

  lemma SingleItem(s: Bytes, value: int, base: int)
    requires s != [] && COMMA !in s
    ensures FieldMatches(s, value, base) <==> ItemMatches(s, value, base)
  {
    SplitWithoutComma(s);
    assert [s][0] == s;
  }

  /** "*\/n" means: every n-th value counted from the first one. */
  lemma EveryNth(n: nat, value: int, base: int)
    requires n < TWO63
    ensures FieldMatches([STAR, SLASH] + Decimal(n), value, base)
            <==> n == 0 || (value - base) % n == 0
  {
    var d := Decimal(n);
    var field := [STAR, SLASH] + d;
    assert field[2] == d[0] && StepAt(field, 0);
    assert field[2..] == d;
    LeadingDigitsOfDigits(d);
    DecimalRoundTrip(n);
    SingleItem(field, value, base);
    assert StepOf(field) == Some(n);
    assert Atoi(field) == None by { assert !IsDigit(field[0]); }
  }

  /** A plain number means that value only. */
  lemma ExactValue(n: nat, value: int, base: int)
    requires n < TWO63
    ensures FieldMatches(Decimal(n), value, base) <==> value == n
  {
    var d := Decimal(n);
    DecimalRoundTrip(n);
    SingleItem(d, value, base);
    assert IsDigit(d[0]);
    assert Atoi(d) == Some(n);
    assert forall i :: 0 <= i < |d| ==> d[i] != STAR;
    assert LeftmostStep(d, 0).None?;
  }

  /** The field "*" and the empty field mean every value. */
  lemma StarMatches(value: int, base: int)
    ensures FieldMatches([STAR], value, base) && FieldMatches([], value, base)
  {
    SingleItem([STAR], value, base);
  }

  // ----- the meaning of every list -----

  /** The item is a number, with an optional sign and leading zeros, in the range of a 64-bit int. */
  ghost predicate Denotes(item: Bytes, v: int) {
    || (0 <= v < TWO63 && IsNumeral(item, v))
    || (0 <= v < TWO63 && item != [] && item[0] == PLUS && IsNumeral(item[1..], v))
    || (-TWO63 <= v <= 0 && item != [] && item[0] == MINUS && IsNumeral(item[1..], -v))
  }

  lemma AtoiIsExact(item: Bytes, v: int)
    ensures Atoi(item) == Some(v) <==> Denotes(item, v)
  {
    if item != [] {
      if v >= 0 {
        NumeralIsExact(item, v);
        NumeralIsExact(item[1..], v);
      }
      if v <= 0 {
        NumeralIsExact(item[1..], -v);
      }
    } else if v >= 0 {
      NumeralIsExact(item, v);
    }
  }

  /** At position i the item has "*\/" and the digits d, no more digits behind them, and no "*\/" with a
      digit behind it before. */
  ghost predicate FirstStep(item: Bytes, i: nat, d: Bytes) {
    && i + 2 + |d| <= |item| && item[i] == STAR && item[i + 1] == SLASH && item[i + 2..i + 2 + |d|] == d
    && d != [] && AllDigits(d) && (i + 2 + |d| < |item| ==> !IsDigit(item[i + 2 + |d|]))
    && forall j :: 0 <= j < i ==> !(item[j] == STAR && item[j + 1] == SLASH && IsDigit(item[j + 2]))
  }

  /** The item's first step is n. */
  ghost predicate HasStep(item: Bytes, n: nat) {
    exists i, d :: FirstStep(item, i, d) && IsNumeral(d, n)
  }

  lemma {:induction false} LeadingDigitsUnique(s: Bytes, d: Bytes)
    requires d <= s && AllDigits(d) && (|d| < |s| ==> !IsDigit(s[|d|]))
    ensures LeadingDigits(s) == d
  {
    if d != [] {
      LeadingDigitsUnique(s[1..], d[1..]);
      assert d == [d[0]] + d[1..];
    }
  }

  lemma FirstStepUnique(item: Bytes, i: nat, d: Bytes)
    requires FirstStep(item, i, d)
    ensures LeftmostStep(item, 0) == Some(i) && LeadingDigits(item[i + 2..]) == d
  {
    assert item[i + 2] == d[0];
    assert StepAt(item, i);
    assert forall j :: 0 <= j < i ==> !StepAt(item, j);
    assert item[i + 2..][..|d|] == d;
    LeadingDigitsUnique(item[i + 2..], d);
  }

  lemma FirstStepFound(item: Bytes)
    requires LeftmostStep(item, 0).Some?
    ensures var i := LeftmostStep(item, 0).value; FirstStep(item, i, LeadingDigits(item[i + 2..]))
  {
    var i := LeftmostStep(item, 0).value;
    DigitsFollow(item, i, item[i + 2..], LeadingDigits(item[i + 2..]));
    forall j | 0 <= j < i ensures !(item[j] == STAR && item[j + 1] == SLASH && IsDigit(item[j + 2])) {
      assert !StepAt(item, j);
    }
  }

  lemma DigitsFollow(item: Bytes, i: nat, s: Bytes, d: Bytes)
    requires StepAt(item, i) && s == item[i + 2..] && d == LeadingDigits(s)
    ensures i + 2 + |d| <= |item| && item[i + 2..i + 2 + |d|] == d && d != []
    ensures i + 2 + |d| < |item| ==> !IsDigit(item[i + 2 + |d|])
  {
    assert s[0] == item[i + 2] && s[..|d|] == d;
    assert |d| < |s| ==> s[|d|] == item[i + 2 + |d|];
  }

  lemma AtoiOfDigits(d: Bytes, n: nat)
    requires d != [] && AllDigits(d)
    ensures Atoi(d) == Some(n) <==> IsNumeral(d, n) && n < TWO63
  {
    NumeralIsExact(d, n);
  }

  lemma StepIsExact(item: Bytes, n: nat)
    ensures StepOf(item) == Some(n) <==> HasStep(item, n) && n < TWO63
  {
    if LeftmostStep(item, 0).Some? {
      FirstStepFound(item);
      var i := LeftmostStep(item, 0).value;
      AtoiOfDigits(LeadingDigits(item[i + 2..]), n);
    }
    if i, d :| FirstStep(item, i, d) && IsNumeral(d, n) {
      FirstStepUnique(item, i, d);
      AtoiOfDigits(d, n);
    }
  }

  /** What an item means: everything, one value, or every n-th value from the first one. */
  ghost predicate Means(item: Bytes, value: int, base: int) {
    || item == [STAR]
    || Denotes(item, value)
    || exists n: nat :: n < TWO63 && HasStep(item, n) && (n == 0 || (value - base) % n == 0)
  }

  lemma ItemIsExact(item: Bytes, value: int, base: int)
    ensures ItemMatches(item, value, base) <==> Means(item, value, base)
  {
    AtoiIsExact(item, value);
    StepRange(item);
    if StepOf(item).Some? {
      StepIsExact(item, StepOf(item).value);
    }
    if n: nat :| n < TWO63 && HasStep(item, n) && (n == 0 || (value - base) % n == 0) {
      StepIsExact(item, n);
    }
  }

  /** A field that lists items, separated by commas, matches exactly the values that some item means. */
  lemma ListIsExact(items: seq<Bytes>, value: int, base: int)
    requires |items| > 0 && NoCommas(items) && Join(items) != []
    ensures FieldMatches(Join(items), value, base) <==>
              exists i :: 0 <= i < |items| && Means(items[i], value, base)
  {
    SplitOfJoin(items);
    forall i | 0 <= i < |items| ensures ItemMatches(items[i], value, base) <==> Means(items[i], value, base) {
      ItemIsExact(items[i], value, base);
    }
  }

  lemma SomeOfConcat(x: seq<Bytes>, y: seq<Bytes>, value: int, base: int)
    ensures SomeItemMatches(x + y, value, base)
            <==> SomeItemMatches(x, value, base) || SomeItemMatches(y, value, base)
  {
    if SomeItemMatches(x, value, base) {
      var i :| 0 <= i < |x| && ItemMatches(x[i], value, base);
      assert (x + y)[i] == x[i];
    }
    if SomeItemMatches(y, value, base) {
      var i :| 0 <= i < |y| && ItemMatches(y[i], value, base);
      assert (x + y)[|x| + i] == y[i];
    }
  }

  /** A comma means "or", for non-empty fields. */
  lemma ListMeansOr(a: Bytes, b: Bytes, value: int, base: int)
    requires a != [] && b != []
    ensures FieldMatches(a + [COMMA] + b, value, base)
            <==> FieldMatches(a, value, base) || FieldMatches(b, value, base)
  {
    SplitOfList(a, b);
    SomeOfConcat(Split(a), Split(b), value, base);
  }
}
