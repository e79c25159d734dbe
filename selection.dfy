/**
 * The range selector `select_data` and the request reader `read_input`, without their file
 * handling: rows arrive already split on ';', and the two text parsers are parameters.
 * `parseStamp` stands for `format_data` (month substitution, then `strptime`) and
 * `parseNumber` for `float(value.replace(',', '.'))`; each answers None where the source
 * raises.
 */
module Selection {
  import opened Wrappers
  import opened Records
  import Quicksort

  /** Why a run stops: a row too short to hold a time stamp, or a field that does not parse. */
  datatype InputError = MissingField | MalformedStamp | MalformedNumber

  /** The selected records, with the header row that names their columns. */
  datatype Selected = Selected(title: seq<string>, records: seq<Record>)

  /** The query: the inclusive time window and one aperture per parameter column. */
  datatype Request = Request(start: Timestamp, end: Timestamp, aperture: seq<real>)

  /** The fields at index 2 and beyond: the parameter columns of a row or a request. */
  function ParameterFields(fields: seq<string>): seq<string>
  {
    if |fields| <= 2 then [] else fields[2..]
  }

  /** Parses the fields left to right, stopping at the first that is not a number. */
  function ParseAll(fields: seq<string>, parseNumber: string -> Option<real>): (r: Option<seq<real>>)
    ensures r.Some? ==> |r.value| == |fields|
    decreases |fields|
  {
    if fields == [] then Some([])
    else match ParseAll(fields[..|fields| - 1], parseNumber)
      case None => None
      case Some(values) =>
        match parseNumber(fields[|fields| - 1])
        case None => None
        case Some(v) => Some(values + [v])
  }

  /** Parsing succeeds exactly when every field parses, and then yields each field's number. */
  lemma {:induction false} ParseAllExact(fields: seq<string>, parseNumber: string -> Option<real>)
    ensures ParseAll(fields, parseNumber).Some? <==>
              forall i :: 0 <= i < |fields| ==> parseNumber(fields[i]).Some?
    ensures ParseAll(fields, parseNumber).Some? ==>
              forall i :: 0 <= i < |fields| ==> ParseAll(fields, parseNumber).value[i] == parseNumber(fields[i]).value
    decreases |fields|
  {
    if fields != [] {
      var prefix := fields[..|fields| - 1];
      ParseAllExact(prefix, parseNumber);
      assert forall i :: 0 <= i < |prefix| ==> prefix[i] == fields[i];
    }
  }

  /**
   * The inner loop of `select_data` and of `read_input`: every field after the first two
   * becomes a number, in order; a field that is not a number stops the run.
   */
  method ParseParameters(fields: seq<string>, parseNumber: string -> Option<real>) returns (r: Option<seq<real>>)
    ensures r == ParseAll(ParameterFields(fields), parseNumber)
  {
    var data := [];
    for index := 0 to |fields|
      invariant index <= 2 ==> data == []
      invariant index > 2 ==> ParseAll(fields[2..index], parseNumber) == Some(data)
    {
      if index > 1 {
        var value := parseNumber(fields[index]);
        assert fields[2..index + 1][..index - 2] == fields[2..index];
        if value.None? {
          PrefixFailure(fields[2..], index - 1, parseNumber);
          assert fields[2..][..index - 1] == fields[2..index + 1];
          return None;
        }
        data := data + [value.value];
      }
    }
    assert |fields| > 2 ==> fields[2..|fields|] == ParameterFields(fields);
    return Some(data);
  }

  /** Once a prefix of the fields fails to parse, so does the whole. */
  lemma {:induction false} PrefixFailure(fields: seq<string>, k: nat, parseNumber: string -> Option<real>)
    requires k <= |fields| && ParseAll(fields[..k], parseNumber).None?
    ensures ParseAll(fields, parseNumber).None?
    decreases |fields| - k
  {
    if k < |fields| {
      assert fields[..k + 1][..k] == fields[..k];
      PrefixFailure(fields, k + 1, parseNumber);
    } else {
      assert fields[..k] == fields;
    }
  }

  /** The row's time stamp lies in the window [start, end], both ends included. */
  predicate InWindow(row: seq<string>, start: Timestamp, end: Timestamp, parseStamp: string -> Option<Timestamp>)
  {
    |row| >= 2 && parseStamp(row[1]).Some? && start <= parseStamp(row[1]).value <= end
  }

  /**
   * One pass of the loop body of `select_data`: a row's time stamp is always parsed, its
   * parameters only when the stamp lies in the window.
   */
  function SelectRow(row: seq<string>, start: Timestamp, end: Timestamp,
                     parseStamp: string -> Option<Timestamp>,
                     parseNumber: string -> Option<real>): Result<Option<Record>, InputError>
  {
    if |row| < 2 then Err(MissingField)
    else match parseStamp(row[1])
      case None => Err(MalformedStamp)
      case Some(t) =>
        if start <= t <= end then
          match ParseAll(ParameterFields(row), parseNumber)
          case None => Err(MalformedNumber)
          case Some(values) => Ok(Some(Record(t, values)))
        else Ok(None)
  }

  /** The records kept from `rows`, in row order, or the error of the first row that fails. */
  function Select(rows: seq<seq<string>>, start: Timestamp, end: Timestamp,
                  parseStamp: string -> Option<Timestamp>,
                  parseNumber: string -> Option<real>): (r: Result<seq<Record>, InputError>)
    ensures r.Ok? ==> forall j :: 0 <= j < |r.value| ==> start <= r.value[j].stamp <= end
    decreases |rows|
  {
    if rows == [] then Ok([])
    else match Select(rows[..|rows| - 1], start, end, parseStamp, parseNumber)
      case Err(e) => Err(e)
      case Ok(kept) =>
        match SelectRow(rows[|rows| - 1], start, end, parseStamp, parseNumber)
        case Err(e) => Err(e)
        case Ok(None) => Ok(kept)
        case Ok(Some(record)) => Ok(kept + [record])
  }

  /** The positions of the rows inside the window, in increasing order. */
  function WindowIndices(rows: seq<seq<string>>, start: Timestamp, end: Timestamp,
                         parseStamp: string -> Option<Timestamp>): seq<nat>
    decreases |rows|
  {
    if rows == [] then []
    else
      var earlier := WindowIndices(rows[..|rows| - 1], start, end, parseStamp);
      if InWindow(rows[|rows| - 1], start, end, parseStamp) then earlier + [|rows| - 1] else earlier
  }

  /** A row is usable when it has a parsable stamp and, inside the window, parsable numbers. */
  predicate WellFormed(row: seq<string>, start: Timestamp, end: Timestamp,
                       parseStamp: string -> Option<Timestamp>,
                       parseNumber: string -> Option<real>)
  {
    && |row| >= 2
    && parseStamp(row[1]).Some?
    && (InWindow(row, start, end, parseStamp) ==> ParseAll(ParameterFields(row), parseNumber).Some?)
  }

  /** Selection fails exactly when some row is not well formed: there is no partial import. */
  lemma {:induction false} SelectSucceedsIffWellFormed(rows: seq<seq<string>>, start: Timestamp, end: Timestamp,
                                                       parseStamp: string -> Option<Timestamp>,
                                                       parseNumber: string -> Option<real>)
    ensures Select(rows, start, end, parseStamp, parseNumber).Ok? <==>
              forall i :: 0 <= i < |rows| ==> WellFormed(rows[i], start, end, parseStamp, parseNumber)
    decreases |rows|
  {
    if rows != [] {
      var prefix := rows[..|rows| - 1];
      SelectSucceedsIffWellFormed(prefix, start, end, parseStamp, parseNumber);
      assert forall i :: 0 <= i < |prefix| ==> prefix[i] == rows[i];
    }
  }

  /**
   * The window indices are exactly the positions of the rows inside the window, once each and
   * in increasing order.
   */
  lemma {:induction false} WindowIndicesExact(rows: seq<seq<string>>, start: Timestamp, end: Timestamp,
                                              parseStamp: string -> Option<Timestamp>)
    ensures StrictlyIncreasing(WindowIndices(rows, start, end, parseStamp))
    ensures forall j :: 0 <= j < |WindowIndices(rows, start, end, parseStamp)| ==>
              WindowIndices(rows, start, end, parseStamp)[j] < |rows|
    ensures forall i :: i in WindowIndices(rows, start, end, parseStamp) <==>
              0 <= i < |rows| && InWindow(rows[i], start, end, parseStamp)
    decreases |rows|
  {
    if rows != [] {
      var prefix := rows[..|rows| - 1];
      WindowIndicesExact(prefix, start, end, parseStamp);
      assert forall i :: 0 <= i < |prefix| ==> prefix[i] == rows[i];
    }
  }

  /**
   * A successful selection keeps exactly the rows inside the window, in row order: its j-th
   * record has the time stamp of the j-th such row and that row's fields from index 2 on.
   */
  lemma {:induction false} SelectKeepsWindowRows(rows: seq<seq<string>>, start: Timestamp, end: Timestamp,
                                                 parseStamp: string -> Option<Timestamp>,
                                                 parseNumber: string -> Option<real>)
    requires Select(rows, start, end, parseStamp, parseNumber).Ok?
    ensures var kept := Select(rows, start, end, parseStamp, parseNumber).value;
            var indices := WindowIndices(rows, start, end, parseStamp);
            && |kept| == |indices|
            && forall j :: 0 <= j < |kept| ==>
                 && indices[j] < |rows|
                 && InWindow(rows[indices[j]], start, end, parseStamp)
                 && ParseAll(ParameterFields(rows[indices[j]]), parseNumber).Some?
                 && kept[j] == Record(parseStamp(rows[indices[j]][1]).value,
                                      ParseAll(ParameterFields(rows[indices[j]]), parseNumber).value)
    decreases |rows|
  {
    if rows != [] {
      var prefix := rows[..|rows| - 1];
      SelectKeepsWindowRows(prefix, start, end, parseStamp, parseNumber);
      WindowIndicesExact(prefix, start, end, parseStamp);
      assert forall i :: 0 <= i < |prefix| ==> prefix[i] == rows[i];
    }
  }

  /** Once a prefix of the rows fails, the whole selection fails with the same error. */
  lemma {:induction false} SelectFailurePersists(rows: seq<seq<string>>, k: nat, start: Timestamp, end: Timestamp,
                                                 parseStamp: string -> Option<Timestamp>,
                                                 parseNumber: string -> Option<real>)
    requires k <= |rows| && Select(rows[..k], start, end, parseStamp, parseNumber).Err?
    ensures Select(rows, start, end, parseStamp, parseNumber) == Select(rows[..k], start, end, parseStamp, parseNumber)
    decreases |rows| - k
  {
    if k < |rows| {
      assert rows[..k + 1][..k] == rows[..k];
      SelectFailurePersists(rows, k + 1, start, end, parseStamp, parseNumber);
    } else {
      assert rows[..k] == rows;
    }
  }

  /**
   * The reading loop of `select_data`: every row's time stamp is parsed, and the rows inside
   * the window become records, in row order. The first row that fails stops the run.
   */
  method SelectRows(rows: seq<seq<string>>, start: Timestamp, end: Timestamp,
                    parseStamp: string -> Option<Timestamp>,
                    parseNumber: string -> Option<real>) returns (r: Result<seq<Record>, InputError>)
    ensures r == Select(rows, start, end, parseStamp, parseNumber)
  {
    var packagesData: seq<Record> := [];
    for i := 0 to |rows|
      invariant Select(rows[..i], start, end, parseStamp, parseNumber) == Ok(packagesData)
    {
      var row := rows[i];
      assert rows[..i + 1][..i] == rows[..i];
      if |row| < 2 {
        SelectFailurePersists(rows, i + 1, start, end, parseStamp, parseNumber);
        return Err(MissingField);
      }
      var dataRecord := parseStamp(row[1]);
      if dataRecord.None? {
        SelectFailurePersists(rows, i + 1, start, end, parseStamp, parseNumber);
        return Err(MalformedStamp);
      }
      if start <= dataRecord.value <= end {
        var data := ParseParameters(row, parseNumber);
        if data.None? {
          SelectFailurePersists(rows, i + 1, start, end, parseStamp, parseNumber);
          return Err(MalformedNumber);
        }
        packagesData := packagesData + [Record(dataRecord.value, data.value)];
      }
    }
    assert rows[..|rows|] == rows;
    return Ok(packagesData);
  }

  /**
   * `select_data` without the file reading: the rows inside the window, sorted in place by
   * the quicksort. On success the header comes back unchanged with the kept records in tuple
   * order; a row that fails to parse stops the run with its error.
   */
  method SelectData(title: seq<string>, rows: seq<seq<string>>, start: Timestamp, end: Timestamp,
                    parseStamp: string -> Option<Timestamp>,
                    parseNumber: string -> Option<real>) returns (r: Result<Selected, InputError>)
    ensures Select(rows, start, end, parseStamp, parseNumber).Err? ==>
              r == Err(Select(rows, start, end, parseStamp, parseNumber).error)
    ensures Select(rows, start, end, parseStamp, parseNumber).Ok? ==>
              && r.Ok?
              && r.value.title == title
              && Sorted(r.value.records)
              && multiset(r.value.records) == multiset(Select(rows, start, end, parseStamp, parseNumber).value)
  {
    var packagesData := SelectRows(rows, start, end, parseStamp, parseNumber);
    if packagesData.Err? {
      return Err(packagesData.error);
    }
    var kept := packagesData.value;
    var buffer := new Record[|kept|](k requires 0 <= k < |kept| => kept[k]);
    assert buffer[0..buffer.Length] == kept;
    var sorted := Quicksort.Quicksort(buffer, 0, buffer.Length);
    assert sorted[..] == sorted[0..sorted.Length];
    assert multiset(sorted[..]) == multiset(kept);
    return Ok(Selected(title, sorted[..]));
  }

  /**
   * `read_input` without the file reading. A request is read when it has two parsable stamps
   * and every later field is a number; the window is then the two stamps and the apertures
   * are the numbers of the later fields, in order. Otherwise the first thing to fail, in the
   * order the source reads them (start stamp, end stamp, apertures), names the error.
   */
  method ReadInput(content: seq<string>,
                   parseStamp: string -> Option<Timestamp>,
                   parseNumber: string -> Option<real>) returns (r: Result<Request, InputError>)
    ensures |content| == 0 ==> r == Err(MissingField)
    ensures |content| >= 1 && parseStamp(content[0]).None? ==> r == Err(MalformedStamp)
    ensures |content| == 1 && parseStamp(content[0]).Some? ==> r == Err(MissingField)
    ensures |content| >= 2 && parseStamp(content[0]).Some? && parseStamp(content[1]).None? ==>
              r == Err(MalformedStamp)
    ensures && |content| >= 2 && parseStamp(content[0]).Some? && parseStamp(content[1]).Some?
            && (exists i :: 2 <= i < |content| && parseNumber(content[i]).None?)
            ==> r == Err(MalformedNumber)
    ensures r.Ok? <==> && |content| >= 2
                       && parseStamp(content[0]).Some? && parseStamp(content[1]).Some?
                       && forall i :: 2 <= i < |content| ==> parseNumber(content[i]).Some?
    ensures r.Ok? ==> && r.value.start == parseStamp(content[0]).value
                      && r.value.end == parseStamp(content[1]).value
                      && |r.value.aperture| == |content| - 2
                      && forall i :: 2 <= i < |content| ==> r.value.aperture[i - 2] == parseNumber(content[i]).value
  {
    ParseAllExact(ParameterFields(content), parseNumber);
    if |content| == 0 {
      return Err(MissingField);
    }
    var start := parseStamp(content[0]);
    if start.None? {
      return Err(MalformedStamp);
    }
    if |content| == 1 {
      return Err(MissingField);
    }
    var end := parseStamp(content[1]);
    if end.None? {
      return Err(MalformedStamp);
    }
    var aperture := ParseParameters(content, parseNumber);
    if aperture.None? {
      assert exists i :: 2 <= i < |content| && parseNumber(content[i]).None? by {
        var i :| 0 <= i < |ParameterFields(content)| && parseNumber(ParameterFields(content)[i]).None?;
        assert ParameterFields(content)[i] == content[i + 2];
      }
      return Err(MalformedNumber);
    }
    forall i | 2 <= i < |content| ensures parseNumber(content[i]).Some? && aperture.value[i - 2] == parseNumber(content[i]).value {
      assert ParameterFields(content)[i - 2] == content[i];
    }
    return Ok(Request(start.value, end.value, aperture.value));
  }
}
