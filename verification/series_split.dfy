/** The past/future splitter: a stable partition of date positions around a reference date. */
module SeriesSplit {
  import opened JsText
  import opened WeatherTypes

  /** Strictly increasing, hence free of duplicates and in original order. */
  predicate StrictlyIncreasing(s: seq<int>)
  {
    forall i, j :: 0 <= i < j < |s| ==> s[i] < s[j]
  }

  lemma AppendGreater(s: seq<int>, x: int)
    requires StrictlyIncreasing(s)
    requires forall k :: 0 <= k < |s| ==> s[k] < x
    ensures StrictlyIncreasing(s + [x])
  {
  }

  /** Walks `dates` in order and sends position `i` to `past` when
      `dates[i] < todayIso` (JavaScript string order), else to `future`. */
  function SplitPastFutureIndices(dates: seq<string>, todayIso: string): (r: SplitIndices)
    ensures |r.past| + |r.future| == |dates|
    ensures StrictlyIncreasing(r.past) && StrictlyIncreasing(r.future)
    ensures forall i :: i in r.past <==> 0 <= i < |dates| && Lt(dates[i], todayIso)
    ensures forall i :: i in r.future <==> 0 <= i < |dates| && !Lt(dates[i], todayIso)
    decreases |dates|
  {
    if |dates| == 0 then SplitIndices([], [])
    else
      var last := |dates| - 1;
      var s := SplitPastFutureIndices(dates[..last], todayIso);
      assert forall k :: 0 <= k < |s.past| ==> s.past[k] in s.past;
      assert forall k :: 0 <= k < |s.future| ==> s.future[k] in s.future;
      AppendGreater(s.past, last);
      AppendGreater(s.future, last);
      if Lt(dates[last], todayIso) then SplitIndices(s.past + [last], s.future)
      else SplitIndices(s.past, s.future + [last])
  }

  /** Every position lands in exactly one of the two lists. */
  lemma SplitIsPartition(dates: seq<string>, todayIso: string, i: int)
    requires 0 <= i < |dates|
    ensures var r := SplitPastFutureIndices(dates, todayIso);
            (i in r.past) != (i in r.future)
  {
  }

  /** One more date appends its position to the list its comparison selects. */
  lemma SplitSnoc(dates: seq<string>, d: string, todayIso: string)
    ensures var s := SplitPastFutureIndices(dates, todayIso);
            SplitPastFutureIndices(dates + [d], todayIso)
            == if Lt(d, todayIso) then SplitIndices(s.past + [|dates|], s.future)
               else SplitIndices(s.past, s.future + [|dates|])
  {
    assert (dates + [d])[..|dates|] == dates;
  }

  /** The order of the worked example's dates around "2024-01-05". */
  lemma ExampleOrder(d0: string, d1: string, d2: string, today: string)
    requires d0 == "2024-01-01" && d1 == "2024-01-05" && d2 == "2024-01-10"
    requires today == "2024-01-05"
    ensures Lt(d0, today) && !Lt(d1, today) && !Lt(d2, today)
  {
    assert d0[..9] == today[..9];
    FirstDifferenceGivesLt(d0, today, 9);
    LtIrreflexive(today);
    assert today[..8] == d2[..8];
    FirstDifferenceGivesLt(today, d2, 8);
    LtAsymmetric(today, d2);
  }

  lemma SplitFirstPast(d0: string, today: string)
    requires Lt(d0, today)
    ensures SplitPastFutureIndices([d0], today) == SplitIndices([0], [])
  {
    var none: seq<string> := [];
    SplitSnoc(none, d0, today);
    assert none + [d0] == [d0];
  }

  lemma SplitSecondFuture(d0: string, d1: string, today: string)
    requires SplitPastFutureIndices([d0], today) == SplitIndices([0], [])
    requires !Lt(d1, today)
    ensures SplitPastFutureIndices([d0, d1], today) == SplitIndices([0], [1])
  {
    SplitSnoc([d0], d1, today);
    assert [d0] + [d1] == [d0, d1];
  }

  lemma SplitThirdFuture(d0: string, d1: string, d2: string, today: string)
    requires SplitPastFutureIndices([d0, d1], today) == SplitIndices([0], [1])
    requires !Lt(d2, today)
    ensures SplitPastFutureIndices([d0, d1, d2], today) == SplitIndices([0], [1, 2])
  {
    SplitSnoc([d0, d1], d2, today);
    assert [d0, d1] + [d2] == [d0, d1, d2];
    assert [1] + [|[d0, d1]|] == [1, 2];
  }

  /** Three dates, of which only the first is before `today`. */
  lemma SplitOneBefore(d0: string, d1: string, d2: string, today: string)
    requires Lt(d0, today) && !Lt(d1, today) && !Lt(d2, today)
    ensures SplitPastFutureIndices([d0, d1, d2], today) == SplitIndices([0], [1, 2])
  {
    SplitFirstPast(d0, today);
    SplitSecondFuture(d0, d1, today);
    SplitThirdFuture(d0, d1, d2, today);
  }

  /** The worked example: three dates around "2024-01-05". */
  lemma SplitExample(d0: string, d1: string, d2: string, today: string)
    requires d0 == "2024-01-01" && d1 == "2024-01-05" && d2 == "2024-01-10"
    requires today == "2024-01-05"
    ensures SplitPastFutureIndices([d0, d1, d2], today) == SplitIndices([0], [1, 2])
  {
    ExampleOrder(d0, d1, d2, today);
    SplitOneBefore(d0, d1, d2, today);
  }
}
