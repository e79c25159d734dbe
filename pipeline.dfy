/**
 * How the two halves of `main` fit together: the records `select_data` keeps are handed,
 * sorted, to `data_sampling`.
 */
module Pipeline {
  import opened Wrappers
  import opened Records
  import opened Sampling
  import opened Selection

  /**
   * Whatever order the kept records are in, every row `data_sampling` emits carries a time
   * stamp inside the requested window.
   */
  lemma {:induction false} SampledStampsInWindow(rows: seq<seq<string>>, start: Timestamp, end: Timestamp,
                                                 parseStamp: string -> Option<Timestamp>,
                                                 parseNumber: string -> Option<real>,
                                                 data: seq<Record>, aperture: seq<real>)
    requires Select(rows, start, end, parseStamp, parseNumber).Ok?
    requires multiset(data) == multiset(Select(rows, start, end, parseStamp, parseNumber).value)
    requires Conforming(data, aperture)
    ensures forall j :: 0 <= j < |Emitted(data, aperture)| ==>
              start <= Emitted(data, aperture)[j].stamp <= end
  {
    var kept := Select(rows, start, end, parseStamp, parseNumber).value;
    forall i | 0 <= i < |data| ensures start <= data[i].stamp <= end {
      assert data[i] in multiset(data);
      assert data[i] in kept;
    }
    EmittedAtChangeIndices(data, aperture);
  }
}
