/** Whole-year age arithmetic behind `isUnder30` in pages/api/update-metafield.ts.
    Dates are (year, month, day) triples; the reference "today" is a parameter
    instead of a read of the clock. */
module Age {

  datatype Date = Date(year: int, month: int, day: int)

  /** `a` comes strictly before `b` in calendar order (lexicographic on the triple). */
  predicate Precedes(a: Date, b: Date) {
    a.year < b.year
    || (a.year == b.year && (a.month < b.month || (a.month == b.month && a.day < b.day)))
  }

  /** The birthday on which someone born on `birth` turns `years` old. */
  function Anniversary(birth: Date, years: int): Date {
    Date(birth.year + years, birth.month, birth.day)
  }

  /** The date thirty years before `today`: birth dates after it are "under 30". */
  function ThirtyYearsBefore(today: Date): Date {
    Date(today.year - 30, today.month, today.day)
  }

  /** What a birth-date field of the submitted value turned out to be:
      a falsy value (`!birth`), a string the date parser rejects
      (`isNaN(birthDate.getTime())`), or a parsed calendar date. */
  datatype BirthInput = Falsy | Unparsable | Parsed(date: Date)

  /** Age in whole years on `today`: the year difference, one less while this
      year's birthday is still ahead. It is the number of birthdays reached. */
  function EffectiveAge(birth: Date, today: Date): (age: int)
    ensures !Precedes(today, Anniversary(birth, age))
    ensures Precedes(today, Anniversary(birth, age + 1))
  {
    var age := today.year - birth.year;
    var m := today.month - birth.month;
    if m < 0 || (m == 0 && today.day < birth.day) then age - 1 else age
  }

  /** `isUnder30(birth)`: false for falsy or unparsable input, otherwise
      whether fewer than thirty birthdays have been reached by `today`. */
  function IsUnder30(birth: BirthInput, today: Date): (r: bool)
    ensures r <==> birth.Parsed? && EffectiveAge(birth.date, today) < 30
    ensures r <==> birth.Parsed? && Precedes(ThirtyYearsBefore(today), birth.date)
  {
    match birth
    case Falsy => false
    case Unparsable => false
    case Parsed(b) =>
      var age := today.year - b.year;
      var m := today.month - b.month;
      if m < 0 || (m == 0 && today.day < b.day) then age - 1 < 30 else age < 30
  }

  /** The age of the anniversary characterisation is unique: any `n` whose
      birthday has been reached while the next one has not is the effective age. */
  lemma EffectiveAgeUnique(birth: Date, today: Date, n: int)
    requires !Precedes(today, Anniversary(birth, n))
    requires Precedes(today, Anniversary(birth, n + 1))
    ensures n == EffectiveAge(birth, today)
  {
  }

  /** Someone born exactly thirty years before today turns thirty today and is
      not under 30; the cutoff is rolling, not a fixed day of the year. */
  lemma ThirtiethBirthdayIsNotUnder30(today: Date)
    ensures EffectiveAge(ThirtyYearsBefore(today), today) == 30
    ensures !IsUnder30(Parsed(ThirtyYearsBefore(today)), today)
  {
  }

  /** Being under 30 is preserved by a later birth date. */
  lemma LaterBirthStaysUnder30(b1: Date, b2: Date, today: Date)
    requires IsUnder30(Parsed(b1), today)
    requires !Precedes(b2, b1)
    ensures IsUnder30(Parsed(b2), today)
  {
  }
}
