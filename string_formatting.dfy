/** Russian plural agreement for the interval labels. */
module StringFormatting {
  import opened Localizable
  import opened UpdateIntervals

  /**
   * Swift's `%` on `Int`: the remainder truncates toward zero, so it takes
   * the sign of the dividend (Dafny's `%` never returns a negative value).
   */
  function SwiftRemainder(a: int, b: int): (r: int)
    requires b > 0
    ensures a >= 0 ==> r == a % b
    ensures a < 0 ==> -b < r <= 0
  {
    if a >= 0 then a % b else -((-a) % b)
  }

  /** Truncation is symmetric about zero: negating the dividend negates the remainder. */
  lemma SwiftRemainderIsOdd(a: int, b: int)
    requires b > 0
    ensures SwiftRemainder(-a, b) == -SwiftRemainder(a, b)
  {
  }

  /** `pluralForm(for:one:few:many:)`, generic in the kind of form. */
  function PluralForm<T>(number: int, one: T, few: T, many: T): (r: T)
    ensures r == one || r == few || r == many
  {
    var mod10 := SwiftRemainder(number, 10);
    var mod100 := SwiftRemainder(number, 100);
    if mod10 == 1 && mod100 != 11 then one
    else if 2 <= mod10 <= 4 && !(12 <= mod100 <= 14) then few
    else many
  }

  /** The three grammatical forms, as a value to reason about. */
  datatype PluralCase = One | Few | Many

  /** Which form `pluralForm` picks for `number`. */
  function Category(number: int): PluralCase {
    PluralForm(number, One, Few, Many)
  }

  /** `pluralForm` is parametric: it picks the argument named by `Category`. */
  lemma PluralFormSelects<T>(number: int, one: T, few: T, many: T)
    ensures PluralForm(number, one, few, many) ==
              match Category(number)
              case One => one
              case Few => few
              case Many => many
  {
  }

  /** For non-negative numbers the rule reads with ordinary remainders. */
  lemma RuleForNaturals(n: nat)
    ensures Category(n) == One <==> n % 10 == 1 && n % 100 != 11
    ensures Category(n) == Few <==> 2 <= n % 10 <= 4 && !(12 <= n % 100 <= 14)
    ensures Category(n) == Many <==>
              !(n % 10 == 1 && n % 100 != 11) && !(2 <= n % 10 <= 4 && !(12 <= n % 100 <= 14))
  {
  }

  /** Swift's truncating remainder sends every negative number to `many`. */
  lemma NegativeIsMany(n: int)
    requires n < 0
    ensures Category(n) == Many
  {
    var mod10 := SwiftRemainder(n, 10);
    assert -10 < mod10 <= 0;
  }

  /** The last decimal digit can be read off the last two. */
  lemma {:induction false} LastDigitOfLastTwo(n: nat)
    ensures (n % 100) % 10 == n % 10
  {
    var q, r := n / 100, n % 100;
    assert n == 10 * (10 * q) + r;
    assert (10 * (10 * q) + r) % 10 == r % 10 by {
      MultipleOfTenShift(10 * q, r);
    }
  }

  lemma {:induction false} MultipleOfTenShift(k: nat, r: nat)
    ensures (10 * k + r) % 10 == r % 10
  {
    if k > 0 {
      MultipleOfTenShift(k - 1, r);
      assert 10 * k + r == (10 * (k - 1) + r) + 10;
    }
  }

  /** For non-negative numbers the form depends only on the last two digits. */
  lemma {:induction false} DependsOnLastTwoDigits(n: nat, m: nat)
    requires n % 100 == m % 100
    ensures Category(n) == Category(m)
  {
    LastDigitOfLastTwo(n);
    LastDigitOfLastTwo(m);
    RuleForNaturals(n);
    RuleForNaturals(m);
  }

  /** The familiar cases: 1 and 21 take `one`, 2–4 and 22 take `few`, 0, 5–20 and 11–14 take `many`. */
  lemma Examples(n: int)
    ensures n == 1 || n == 21 || n == 101 ==> Category(n) == One
    ensures 2 <= n <= 4 || n == 22 ==> Category(n) == Few
    ensures n == 0 || 5 <= n <= 20 ==> Category(n) == Many
  {
  }

  /** `hoursString(for:)`: "час", "часа", "часов". */
  function HoursString(hours: int): (t: Text)
    ensures t == HourWord || t == Literal("часа") || t == HoursWord
  {
    PluralForm(hours, HourWord, Literal("часа"), HoursWord)
  }

  /** `minutesString(for:)`: "минута", "минуты", "минут". */
  function MinutesString(minutes: int): (t: Text)
    ensures t == MinuteWord || t == Literal("минуты") || t == MinutesWord
  {
    PluralForm(minutes, MinuteWord, Literal("минуты"), MinutesWord)
  }

  /** The word chosen for a count is the one its plural case names. */
  lemma UnitWordsFollowCategory(n: int)
    ensures HoursString(n) == HourWord <==> Category(n) == One
    ensures HoursString(n) == Literal("часа") <==> Category(n) == Few
    ensures MinutesString(n) == MinuteWord <==> Category(n) == One
    ensures MinutesString(n) == Literal("минуты") <==> Category(n) == Few
  {
    PluralFormSelects(n, HourWord, Literal("часа"), HoursWord);
    PluralFormSelects(n, MinuteWord, Literal("минуты"), MinutesWord);
  }

  /** A piece of an interpolated string; pieces are separated by single spaces. */
  datatype Token = Word(text: Text) | Number(value: int)

  predicate IsHourToken(t: Token) {
    t.Word? && (t.text == HourWord || t.text == Literal("часа") || t.text == HoursWord)
  }

  predicate IsMinuteToken(t: Token) {
    t.Word? && (t.text == MinuteWord || t.text == Literal("минуты") || t.text == MinutesWord)
  }

  predicate MentionsHours(d: seq<Token>) {
    exists j :: 0 <= j < |d| && IsHourToken(d[j])
  }

  predicate MentionsMinutes(d: seq<Token>) {
    exists j :: 0 <= j < |d| && IsMinuteToken(d[j])
  }

  /**
   * `intervalDescription(for:)`: minutes alone when there are no hours (even
   * zero minutes), hours alone when there are no minutes, otherwise hours
   * then minutes, each count followed by its plural word.
   */
  function IntervalDescription(interval: UpdateInterval): (d: seq<Token>)
    ensures |d| >= 3 && d[0] == Word(EveryWord)
    ensures interval.hours == 0 ==>
              |d| == 3 && !MentionsHours(d) && MentionsMinutes(d)
              && d[1] == Number(interval.minutes) && d[2] == Word(MinutesString(interval.minutes))
    ensures interval.hours != 0 && interval.minutes == 0 ==>
              |d| == 3 && MentionsHours(d) && !MentionsMinutes(d)
              && d[1] == Number(interval.hours) && d[2] == Word(HoursString(interval.hours))
    ensures interval.hours != 0 && interval.minutes != 0 ==>
              |d| == 5 && d[1] == Number(interval.hours) && d[2] == Word(HoursString(interval.hours))
              && d[3] == Number(interval.minutes) && d[4] == Word(MinutesString(interval.minutes))
  {
    var h, m := interval.hours, interval.minutes;
    if h == 0 then
      var d := [Word(EveryWord), Number(m), Word(MinutesString(m))];
      assert IsMinuteToken(d[2]);
      d
    else if m == 0 then
      var d := [Word(EveryWord), Number(h), Word(HoursString(h))];
      assert IsHourToken(d[2]);
      d
    else
      [Word(EveryWord), Number(h), Word(HoursString(h))] + [Number(m), Word(MinutesString(m))]
  }

  /**
   * The menu text and the picker's `localizedDescription` make the same
   * three-way choice of which units to show.
   */
  lemma DescriptionsAgree(interval: UpdateInterval)
    ensures interval.LocalizedDescription().format == MinutesOnlyFormat <==>
              !MentionsHours(IntervalDescription(interval))
    ensures interval.LocalizedDescription().format == HoursOnlyFormat <==>
              !MentionsMinutes(IntervalDescription(interval))
  {
    var d := IntervalDescription(interval);
    if interval.hours != 0 && interval.minutes != 0 {
      assert IsHourToken(d[2]) && IsMinuteToken(d[4]);
    }
  }
}
