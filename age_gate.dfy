/** Calendar dates as the form's `Date` getters report them, and the age
    computed from a birth date and today's date. */
module AgeGate {

  /** A date as `getFullYear()`, `getMonth()` (0 for January) and `getDate()`
      (the day of the month, from 1) return its components. */
  datatype Date = Date(year: int, month0: int, day: int)

  /** `a` falls strictly before `b`, comparing year, then month, then day. */
  predicate Before(a: Date, b: Date) {
    a.year < b.year
    || (a.year == b.year && (a.month0 < b.month0 || (a.month0 == b.month0 && a.day < b.day)))
  }

  /** The date whose month and day are those of `birth`, `n` years later. */
  function Anniversary(birth: Date, n: int): Date {
    Date(birth.year + n, birth.month0, birth.day)
  }

  /** Today's month and day come before the birth month and day. */
  predicate BirthdayAhead(birth: Date, today: Date) {
    today.month0 - birth.month0 < 0
    || (today.month0 - birth.month0 == 0 && today.day < birth.day)
  }

  /** The difference of the years, one less while this year's birthday is
      still ahead. */
  function Age(birth: Date, today: Date): int {
    (today.year - birth.year) - (if BirthdayAhead(birth, today) then 1 else 0)
  }

  /** The age threshold of the gate. */
  const AdultAge := 18

  predicate IsAdult(birth: Date, today: Date) {
    Age(birth, today) >= AdultAge
  }

  /** `Age` counts the anniversaries of the birth date that have been reached:
      the one `Age` years on is not after today, the next one is. */
  lemma AgeCompletedYears(birth: Date, today: Date)
    ensures !Before(today, Anniversary(birth, Age(birth, today)))
    ensures Before(today, Anniversary(birth, Age(birth, today) + 1))
  {
  }

  /** Reaching the `n`-th anniversary reaches every earlier one. */
  lemma AnniversaryOrder(birth: Date, today: Date, m: int, n: int)
    requires m <= n
    requires !Before(today, Anniversary(birth, n))
    ensures !Before(today, Anniversary(birth, m))
  {
  }

  /** The anniversary count is the only number with that property. */
  lemma AgeUnique(birth: Date, today: Date, n: int)
    requires !Before(today, Anniversary(birth, n))
    requires Before(today, Anniversary(birth, n + 1))
    ensures n == Age(birth, today)
  {
    var a := Age(birth, today);
    AgeCompletedYears(birth, today);
    if n < a {
      AnniversaryOrder(birth, today, n + 1, a);
    } else if a < n {
      AnniversaryOrder(birth, today, a + 1, n);
    }
  }

  /** The gate opens exactly when today is on or after the eighteenth
      anniversary of the birth date. */
  lemma IsAdultIff(birth: Date, today: Date)
    ensures IsAdult(birth, today) <==> !Before(today, Anniversary(birth, AdultAge))
  {
    var a := Age(birth, today);
    AgeCompletedYears(birth, today);
    if a >= AdultAge {
      AnniversaryOrder(birth, today, AdultAge, a);
    } else {
      if !Before(today, Anniversary(birth, AdultAge)) {
        AnniversaryOrder(birth, today, a + 1, AdultAge);
        assert false;
      }
    }
  }

  /** A later birth date never gives a larger age. */
  lemma AgeMonotone(earlier: Date, later: Date, today: Date)
    requires !Before(later, earlier)
    ensures Age(later, today) <= Age(earlier, today)
  {
  }

  /** Born exactly eighteen years before today: the gate is open, with age 18. */
  lemma EighteenthBirthday(today: Date)
    ensures Age(Date(today.year - AdultAge, today.month0, today.day), today) == AdultAge
    ensures IsAdult(Date(today.year - AdultAge, today.month0, today.day), today)
  {
  }

  /** Born one day later than that: the gate is closed, with age 17. */
  lemma DayBeforeEighteenthBirthday(today: Date)
    ensures Age(Date(today.year - AdultAge, today.month0, today.day + 1), today) == AdultAge - 1
    ensures !IsAdult(Date(today.year - AdultAge, today.month0, today.day + 1), today)
  {
  }
}
