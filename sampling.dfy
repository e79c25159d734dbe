/**
 * The change-point sampler `data_sampling`: walks adjacent pairs of the sorted, selected
 * records and, each time the comparator reports an exceedance, emits the later record under
 * the next sequence number, after the header row.
 */
module Sampling {
  import opened Records
  import opened Aperture

  /** A row handed to the output writer: the header, or a numbered change point. */
  datatype Row = Header(names: seq<string>) | Point(number: nat, stamp: Timestamp, values: seq<real>)

  /** Every record carries one value per aperture, as the comparator needs. */
  predicate Conforming(data: seq<Record>, aperture: seq<real>)
  {
    forall i :: 0 <= i < |data| ==> |data[i].values| == |aperture|
  }

  /** Record `i` moved by more than the aperture since record `i - 1`. */
  predicate ChangedAt(data: seq<Record>, aperture: seq<real>, i: int)
    requires Conforming(data, aperture) && 1 <= i < |data|
  {
    Exceeds(data[i - 1].values, data[i].values, aperture)
  }

  /**
   * The change points emitted for `data`, in order, numbered from 1. The first record is
   * only ever a baseline, so fewer than two records emit nothing.
   */
  function Emitted(data: seq<Record>, aperture: seq<real>): (points: seq<Row>)
    requires Conforming(data, aperture)
    ensures |points| < |data| || points == []
    ensures forall j :: 0 <= j < |points| ==> points[j].Point? && points[j].number == j + 1
    decreases |data|
  {
    if |data| < 2 then []
    else
      var earlier := Emitted(data[..|data| - 1], aperture);
      var last := data[|data| - 1];
      if ChangedAt(data, aperture, |data| - 1)
      then earlier + [Point(|earlier| + 1, last.stamp, last.values)]
      else earlier
  }

  /** The positions i >= 1 of `data` where the record changed, in increasing order. */
  function ChangeIndices(data: seq<Record>, aperture: seq<real>): (indices: seq<nat>)
    requires Conforming(data, aperture)
    decreases |data|
  {
    if |data| < 2 then []
    else
      var earlier := ChangeIndices(data[..|data| - 1], aperture);
      if ChangedAt(data, aperture, |data| - 1) then earlier + [|data| - 1] else earlier
  }

  /**
   * The change indices are exactly the positions i with 1 <= i < |data| where record i
   * exceeds the aperture against record i - 1, each once and in increasing order.
   */
  lemma {:induction false} ChangeIndicesExact(data: seq<Record>, aperture: seq<real>)
    requires Conforming(data, aperture)
    ensures StrictlyIncreasing(ChangeIndices(data, aperture))
    ensures forall j :: 0 <= j < |ChangeIndices(data, aperture)| ==>
              1 <= ChangeIndices(data, aperture)[j] < |data| &&
              ChangedAt(data, aperture, ChangeIndices(data, aperture)[j])
    ensures forall i :: 1 <= i < |data| && ChangedAt(data, aperture, i) ==>
              i in ChangeIndices(data, aperture)
    decreases |data|
  {
    if |data| >= 2 {
      var prefix := data[..|data| - 1];
      ChangeIndicesExact(prefix, aperture);
      forall i | 1 <= i < |prefix| ensures ChangedAt(prefix, aperture, i) == ChangedAt(data, aperture, i) {
        assert prefix[i - 1] == data[i - 1] && prefix[i] == data[i];
      }
    }
  }

  /**
   * The j-th emitted row is the record at the j-th change index, numbered j + 1: numbers run
   * 1..K without gaps, and K is the number of changes.
   */
  lemma {:induction false} EmittedAtChangeIndices(data: seq<Record>, aperture: seq<real>)
    requires Conforming(data, aperture)
    ensures |Emitted(data, aperture)| == |ChangeIndices(data, aperture)|
    ensures forall j :: 0 <= j < |Emitted(data, aperture)| ==>
              ChangeIndices(data, aperture)[j] < |data| &&
              Emitted(data, aperture)[j] ==
                Point(j + 1, data[ChangeIndices(data, aperture)[j]].stamp,
                      data[ChangeIndices(data, aperture)[j]].values)
    decreases |data|
  {
    if |data| >= 2 {
      var prefix := data[..|data| - 1];
      EmittedAtChangeIndices(prefix, aperture);
      ChangeIndicesExact(prefix, aperture);
    }
  }

  /** Emitted rows follow the input order, so a sorted input gives chronological output. */
  lemma ChronologicalOutput(data: seq<Record>, aperture: seq<real>)
    requires Conforming(data, aperture) && Sorted(data)
    ensures forall j, k :: 0 <= j < k < |Emitted(data, aperture)| ==>
              Emitted(data, aperture)[j].stamp <= Emitted(data, aperture)[k].stamp
  {
    var points, indices := Emitted(data, aperture), ChangeIndices(data, aperture);
    EmittedAtChangeIndices(data, aperture);
    ChangeIndicesExact(data, aperture);
    forall j, k | 0 <= j < k < |points| ensures points[j].stamp <= points[k].stamp {
      assert indices[j] < indices[k];
      assert Le(data[indices[j]], data[indices[k]]);
    }
  }

  /**
   * The loop of `data_sampling`: `count` numbers the change points and `results` starts with
   * the header. The source hands `results` to the output writer; here it is returned.
   */
  method DataSampling(aperture: seq<real>, title: seq<string>, data: seq<Record>) returns (results: seq<Row>)
    requires Conforming(data, aperture)
    ensures results == [Header(title)] + Emitted(data, aperture)
  {
    results := [Header(title)];
    var count := 0;
    var index := 1;
    while index < |data|
      invariant 1 <= index && (|data| == 0 || index <= |data|)
      invariant count == |results| - 1
      invariant results == [Header(title)] + Emitted(data[..if |data| == 0 then 0 else index], aperture)
    {
      assert data[..index + 1][..index] == data[..index];
      if Exceeds(data[index - 1].values, data[index].values, aperture) {
        count := count + 1;
        results := results + [Point(count, data[index].stamp, data[index].values)];
      }
      index := index + 1;
    }
    assert |data| > 0 ==> data[..index] == data;
  }

  /**
   * The worked example: one parameter with values 0, 0, 5, 5, 100 at times 1..5 and an
   * aperture of 1 emits the third record as point 1 and the fifth as point 2.
   */
  lemma FiveRecordExample()
    ensures Emitted([Record(1, [0.0]), Record(2, [0.0]), Record(3, [5.0]), Record(4, [5.0]), Record(5, [100.0])], [1.0])
         == [Point(1, 3, [5.0]), Point(2, 5, [100.0])]
  {
    var data := [Record(1, [0.0]), Record(2, [0.0]), Record(3, [5.0]), Record(4, [5.0]), Record(5, [100.0])];
    var aperture := [1.0];
    assert data[..1] == [Record(1, [0.0])];
    assert data[..2] == [Record(1, [0.0]), Record(2, [0.0])];
    assert data[..2][..1] == data[..1];
    assert data[..3][..2] == data[..2];
    assert data[..4][..3] == data[..3];
    assert data[..5][..4] == data[..4];
    assert data[..5] == data;
    assert !ChangedAt(data[..2], aperture, 1);
    assert Emitted(data[..2], aperture) == [];
    assert Abs(data[2].values[0] - data[1].values[0]) > aperture[0];
    assert ChangedAt(data[..3], aperture, 2);
    assert Emitted(data[..3], aperture) == [Point(1, 3, [5.0])];
    assert !ChangedAt(data[..4], aperture, 3);
    assert Emitted(data[..4], aperture) == [Point(1, 3, [5.0])];
    assert Abs(data[4].values[0] - data[3].values[0]) > aperture[0];
    assert ChangedAt(data, aperture, 4);
  }
}
