/**
 * String and date helpers shared by the services. "Today" is a parameter
 * instead of the system clock; an exception is an Err.
 */
module CommonUtil {
  import opened Wrappers
  import opened JavaStrings

  datatype UtilError = IndexOutOfBounds | DateTimeParse

  /** `getLastCharacter(data, length)`: None stands for null. */
  function GetLastCharacter(data: Option<string>, length: int): (r: Result<string, UtilError>)
    ensures (data.None? || data.value == []) ==> r == Ok("")
    ensures data.Some? && data.value != [] && length > |data.value| ==> r == Ok(data.value)
    ensures data.Some? && data.value != [] && length < 0 ==> r == Err(IndexOutOfBounds)
    ensures data.Some? && data.value != [] && 0 <= length <= |data.value| ==>
              r.Ok? && |r.value| == length && EndsWith(data.value, r.value)
  {
    if data.None? || data.value == [] then Ok("")
    else if length > |data.value| then Ok(data.value)
    else if length < 0 then Err(IndexOutOfBounds)
    else Ok(data.value[|data.value| - length..])
  }

  /** The suffix taken is exactly the last `length` characters: prefix + result rebuilds the input. */
  lemma LastCharacterSplits(data: string, length: int)
    requires data != [] && 0 <= length <= |data|
    ensures GetLastCharacter(Some(data), length).Ok?
    ensures data[..|data| - length] + GetLastCharacter(Some(data), length).value == data
  {
  }

  datatype Date = Date(year: int, month: int, day: int)

  /** The length of a month as `MonthDay` allows it: February may have 29 days. */
  function MaxDay(month: int): int
    requires 1 <= month <= 12
  {
    if month == 2 then 29 else if month in {4, 6, 9, 11} then 30 else 31
  }

  /** `MonthDay.parse(text, "MMdd")`: exactly four digits naming a valid month and day. */
  function ParseMonthDay(text: string): (r: Option<(int, int)>)
    ensures r.Some? ==> |text| == 4 && 1 <= r.value.0 <= 12 && 1 <= r.value.1 <= MaxDay(r.value.0)
  {
    if |text| != 4 || !(forall i :: 0 <= i < 4 ==> IsDigit(text[i])) then None
    else
      var month := ParseNat(text[..2]);
      var day := ParseNat(text[2..]);
      if 1 <= month <= 12 && 1 <= day <= MaxDay(month) then Some((month, day)) else None
  }

  /** `monthDay.isAfter(other)`: later month, or same month and later day. */
  predicate MonthDayAfter(a: (int, int), b: (int, int)) {
    a.0 > b.0 || (a.0 == b.0 && a.1 > b.1)
  }

  /** `getYear(date)` on the given day. */
  function GetYear(date: string, today: Date): (r: Result<string, UtilError>)
    ensures r.Ok? <==> ParseMonthDay(if |date| > 4 then date[..4] else date).Some?
    ensures r.Ok? ==>
              var md := ParseMonthDay(if |date| > 4 then date[..4] else date).value;
              r.value == IntToString(if MonthDayAfter(md, (today.month, today.day)) then today.year - 1 else today.year)
  {
    var text := if |date| > 4 then date[..4] else date;
    match ParseMonthDay(text)
    case None => Err(DateTimeParse)
    case Some(md) =>
      if MonthDayAfter(md, (today.month, today.day)) then Ok(IntToString(today.year - 1)) else Ok(IntToString(today.year))
  }

  /** `addYear(date)`: the year, then the whole date text. */
  function AddYear(date: string, today: Date): (r: Result<string, UtilError>)
    ensures r.Ok? <==> GetYear(date, today).Ok?
    ensures r.Ok? ==> r.value == GetYear(date, today).value + date
  {
    var year :- GetYear(date, today);
    Ok(year + date)
  }

  /** Dates in calendar order: by year, then month, then day. */
  predicate OnOrBefore(a: Date, b: Date) {
    a.year < b.year || (a.year == b.year && (a.month < b.month || (a.month == b.month && a.day <= b.day)))
  }

  /**
   * The year is the most recent one in which the month-day has already
   * come: the month-day in that year is on or before today, and in the
   * following year it is after today.
   */
  lemma GetYearIsLatestPast(date: string, today: Date)
    requires GetYear(date, today).Ok?
    ensures var md := ParseMonthDay(if |date| > 4 then date[..4] else date).value;
            exists y :: GetYear(date, today).value == IntToString(y)
              && OnOrBefore(Date(y, md.0, md.1), today)
              && !OnOrBefore(Date(y + 1, md.0, md.1), today)
  {
    var md := ParseMonthDay(if |date| > 4 then date[..4] else date).value;
    var y := if MonthDayAfter(md, (today.month, today.day)) then today.year - 1 else today.year;
    assert GetYear(date, today).value == IntToString(y);
    assert OnOrBefore(Date(y, md.0, md.1), today) && !OnOrBefore(Date(y + 1, md.0, md.1), today);
  }

  /** Gregorian leap years. */
  predicate IsLeapYear(y: int) {
    y % 4 == 0 && (y % 100 != 0 || y % 400 == 0)
  }

  /**
   * `MonthDay` accepts 29 February whatever the year, so in a year that is
   * not a leap year `addYear` builds the text of a day that does not exist.
   */
  lemma February29InCommonYear()
    ensures GetYear("0229", Date(2025, 3, 1)) == Ok(IntToString(2025))
    ensures AddYear("0229", Date(2025, 3, 1)) == Ok(IntToString(2025) + "0229")
    ensures !IsLeapYear(2025)
  {
    assert "0229"[..2] == "02" && "0229"[2..] == "29";
    assert ParseNat("02") == 2 && ParseNat("29") == 29;
  }

  lemma ParseDecember31()
    ensures ParseMonthDay("1231") == Some((12, 31))
  {
    assert "1231"[..2] == "12" && "1231"[2..] == "31";
    assert ParseNat("12") == 12 && ParseNat("31") == 31;
  }

  lemma ParseJanuary1()
    ensures ParseMonthDay("0101") == Some((1, 1))
  {
    assert "0101"[..2] == "01" && "0101"[2..] == "01";
    assert ParseNat("01") == 1;
  }

  lemma ParseFebruary30()
    ensures ParseMonthDay("0230") == None
  {
    assert "0230"[..2] == "02" && "0230"[2..] == "30";
    assert ParseNat("02") == 2 && ParseNat("30") == 30;
  }

  /** Worked cases: a month-day after today yields last year; an impossible day or a short text is a parse error. */
  lemma GetYearExamples()
    ensures GetYear("1231", Date(2024, 6, 15)) == Ok(IntToString(2023))
    ensures GetYear("12319999", Date(2024, 6, 15)) == Ok(IntToString(2023))
    ensures GetYear("0101", Date(2024, 6, 15)) == Ok(IntToString(2024))
    ensures GetYear("0230", Date(2024, 6, 15)) == Err(DateTimeParse)
    ensures GetYear("123", Date(2024, 6, 15)) == Err(DateTimeParse)
  {
    ParseDecember31();
    ParseJanuary1();
    ParseFebruary30();
    assert "12319999"[..4] == "1231";
  }

  /** `addYear` keeps the whole input after the year, also beyond the four characters `getYear` reads. */
  lemma AddYearKeepsInput(date: string, today: Date)
    requires AddYear(date, today).Ok?
    ensures EndsWith(AddYear(date, today).value, date)
    ensures |AddYear(date, today).value| == |GetYear(date, today).value| + |date|
  {
  }
}
