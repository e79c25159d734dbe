/**
 * The month tables of `constants.py` and the month substitution that `format_data` and
 * `format_data_in_str` perform around `strptime` / `strftime`, whose format
 * `'%d %m %Y г. %H:%M:%S.%f мсек'` writes the month as two digits while the data files
 * spell it as a Russian month name in the genitive.
 */
module Months {
  import opened Wrappers

  /** `MONCH_DICT`: month name to two-digit month. */
  const MonthNumber: map<string, string> := map[
    "января" := "01", "февраля" := "02", "марта" := "03", "апреля" := "04",
    "мая" := "05", "июня" := "06", "июля" := "07", "августа" := "08",
    "сентября" := "09", "октября" := "10", "ноября" := "11", "декабря" := "12"]

  /** `MONCH_DICT_FOR_STR`: two-digit month to month name. */
  const MonthName: map<string, string> := map[
    "01" := "января", "02" := "февраля", "03" := "марта", "04" := "апреля",
    "05" := "мая", "06" := "июня", "07" := "июля", "08" := "августа",
    "09" := "сентября", "10" := "октября", "11" := "ноября", "12" := "декабря"]

  /** The twelve months as `%m` writes them. */
  const NumericMonths: set<string> :=
    {"01", "02", "03", "04", "05", "06", "07", "08", "09", "10", "11", "12"}

  /** `MONCH_DICT_FOR_STR` is keyed by exactly the months '01'..'12'. */
  lemma MonthNameKeys()
    ensures MonthName.Keys == NumericMonths
  {
  }

  /** Looking a name up in one table and the result up in the other gives the name back. */
  lemma NameNumberRoundTrip()
    ensures forall m :: m in MonthNumber ==> MonthNumber[m] in MonthName && MonthName[MonthNumber[m]] == m
  {
  }

  /** Looking a month number up in one table and the result up in the other gives it back. */
  lemma NumberNameRoundTrip()
    ensures forall k :: k in MonthName ==> MonthName[k] in MonthNumber && MonthNumber[MonthName[k]] == k
  {
  }

  /** `MONCH_DICT` has twelve entries. */
  lemma MonthNumberSize()
    ensures |MonthNumber| == 12
  {
  }

  /**
   * The two tables are each other's inverse: the values of `MONCH_DICT` are exactly the keys
   * '01'..'12' of `MONCH_DICT_FOR_STR`, and the values of `MONCH_DICT_FOR_STR` are exactly the
   * month names that key `MONCH_DICT`.
   */
  lemma {:induction false} TablesInverse()
    ensures MonthNumber.Values == NumericMonths
    ensures MonthName.Values == MonthNumber.Keys
  {
    MonthNameKeys();
    NameNumberRoundTrip();
    NumberNameRoundTrip();
    forall v | v in NumericMonths ensures v in MonthNumber.Values {
      assert MonthNumber[MonthName[v]] == v;
    }
    forall m | m in MonthNumber ensures m in MonthName.Values {
      assert MonthName[MonthNumber[m]] == m;
    }
  }

  /**
   * The fields of a time stamp written with the source's format: day, month, year and the
   * time of day with its microseconds. The month holds two digits or a month name.
   */
  datatype StampText = StampText(day: string, month: string, year: string, clock: string)

  /** The text of a time stamp: `'%d %m %Y г. %H:%M:%S.%f мсек'` with its fields filled in. */
  function Render(f: StampText): string
  {
    f.day + " " + f.month + " " + f.year + " г. " + f.clock + " мсек"
  }

  /**
   * The substitution in `format_data`, before `strptime`: the month name becomes its two
   * digits. A word that is not a month name is a `KeyError`.
   */
  function ToNumericMonth(f: StampText): (r: Option<StampText>)
    ensures r.Some? <==> f.month in MonthNumber
    ensures r.Some? ==> r.value.month in MonthName && MonthName[r.value.month] == f.month
    ensures r.Some? ==> r.value.day == f.day && r.value.year == f.year && r.value.clock == f.clock
  {
    NameNumberRoundTrip();
    if f.month in MonthNumber then Some(f.(month := MonthNumber[f.month])) else None
  }

  /**
   * The substitution in `format_data_in_str`, after `strftime`, as intended: the month field,
   * and only it, becomes the month name.
   */
  function ToMonthName(f: StampText): (r: Option<StampText>)
    ensures r.Some? <==> f.month in NumericMonths
    ensures r.Some? ==> r.value.month in MonthNumber && MonthNumber[r.value.month] == f.month
    ensures r.Some? ==> r.value.day == f.day && r.value.year == f.year && r.value.clock == f.clock
  {
    MonthNameKeys();
    NumberNameRoundTrip();
    if f.month in MonthName then Some(f.(month := MonthName[f.month])) else None
  }

  /** Reading a stamp and writing it back restores the month name, and nothing else changes. */
  lemma ReadThenWrite(f: StampText)
    requires ToNumericMonth(f).Some?
    ensures ToMonthName(ToNumericMonth(f).value) == Some(f)
  {
    NameNumberRoundTrip();
  }

  /** Writing a stamp with a two-digit month and reading it back restores the digits. */
  lemma WriteThenRead(f: StampText)
    requires f.month in NumericMonths
    ensures ToMonthName(f).Some? && ToNumericMonth(ToMonthName(f).value) == Some(f)
  {
    MonthNameKeys();
    NumberNameRoundTrip();
  }

  /**
   * Python's `str.replace(pattern, replacement)`: every occurrence of `pattern`, scanning left to right
   * without overlaps, is replaced.
   */
  function ReplaceAll(s: string, pattern: string, replacement: string): (r: string)
    requires pattern != []
    ensures |s| < |pattern| ==> r == s
    ensures OccursAt(s, pattern, 0) ==> replacement <= r
    ensures s != [] && !OccursAt(s, pattern, 0) ==> r != [] && r[0] == s[0]
    decreases |s|
  {
    if |s| < |pattern| then s
    else if s[..|pattern|] == pattern then replacement + ReplaceAll(s[|pattern|..], pattern, replacement)
    else [s[0]] + ReplaceAll(s[1..], pattern, replacement)
  }

  /** `pattern` occurs in `s` starting at position `i`. */
  predicate OccursAt(s: string, pattern: string, i: int)
  {
    0 <= i <= |s| - |pattern| && s[i..i + |pattern|] == pattern
  }

  /** Where the pattern does not occur, `replace` changes nothing. */
  lemma {:induction false} ReplaceAllWithoutOccurrence(s: string, pattern: string, replacement: string)
    requires pattern != []
    requires forall i :: !OccursAt(s, pattern, i)
    ensures ReplaceAll(s, pattern, replacement) == s
    decreases |s|
  {
    if |s| >= |pattern| {
      assert !OccursAt(s, pattern, 0);
      assert s[0..|pattern|] == s[..|pattern|];
      forall i ensures !OccursAt(s[1..], pattern, i) {
        if 0 <= i <= |s[1..]| - |pattern| {
          assert s[1..][i..i + |pattern|] == s[i + 1..i + 1 + |pattern|];
          assert !OccursAt(s, pattern, i + 1);
        }
      }
      ReplaceAllWithoutOccurrence(s[1..], pattern, replacement);
      assert s == [s[0]] + s[1..];
    }
  }

  /**
   * `format_data_in_str` as written: `date_str.replace(month_str, ...)` replaces the month
   * digits wherever they occur in the whole text, not only in the month field.
   */
  function MonthNameAsWritten(f: StampText): (text: string)
    requires f.month in MonthName
    ensures f.day == f.month ==> MonthName[f.month] <= text
  {
    assert Render(f) == f.day + (" " + f.month + " " + f.year + " г. " + f.clock + " мсек");
    assert Render(f)[..|f.day|] == f.day;
    ReplaceAll(Render(f), f.month, MonthName[f.month])
  }

  /** A month name starts with a letter, where the month's two digits start with a digit. */
  lemma NamesStartWithLetter(k: string)
    requires k in MonthName
    ensures |k| == 2 && MonthName[k] != [] && MonthName[k][0] != k[0]
  {
  }

  /**
   * Replacing the month text throughout a stamp whose day reads the same as its month puts the
   * replacement at the very start, where only the month field was meant to change.
   */
  lemma {:induction false} ReplaceAllReachesDay(f: StampText, name: string)
    requires f.month != [] && f.day == f.month
    requires name != [] && name[0] != f.month[0]
    ensures ReplaceAll(Render(f), f.month, name) != Render(f.(month := name))
  {
    var text := Render(f);
    var pattern := f.month;
    assert text == pattern + (" " + f.month + " " + f.year + " г. " + f.clock + " мсек");
    assert text[..|pattern|] == pattern;
    var written := ReplaceAll(text, pattern, name);
    assert written == name + ReplaceAll(text[|pattern|..], pattern, name);
    assert written[0] == name[0];
    assert Render(f.(month := name))[0] == pattern[0];
  }

  /**
   * Whenever the day equals the month (1 January, 2 February, ...), the written text renames
   * the day as well: it starts with a month name where the intended text starts with digits.
   */
  lemma AsWrittenRenamesDayEqualToMonth(f: StampText)
    requires f.month in MonthName && f.day == f.month
    ensures ToMonthName(f).Some?
    ensures MonthNameAsWritten(f) != Render(ToMonthName(f).value)
  {
    NamesStartWithLetter(f.month);
    ReplaceAllReachesDay(f, MonthName[f.month]);
  }

  /** The concrete case: midnight of 1 January 2023. */
  lemma NewYearStampExample()
    ensures MonthNameAsWritten(StampText("01", "01", "2023", "00:00:00.000000"))
         != Render(StampText("01", "января", "2023", "00:00:00.000000"))
  {
    AsWrittenRenamesDayEqualToMonth(StampText("01", "01", "2023", "00:00:00.000000"));
  }
}
