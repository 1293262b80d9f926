/**
 * The dataset-name filter of `list_datasets`: datasets whose lower-cased
 * name contains `usage metrics` are dropped, the rest kept in order.
 */
module Datasets {
  import opened Wrappers
  import opened Ascii

  /** A dataset as the listing returns it; `name` is None when absent. */
  datatype Dataset = Dataset(id: string, name: Option<string>)

  const UsageMetrics: string := "usage metrics"

  /** `"usage metrics" in ds.get("name", "").lower()`. */
  predicate IsUsageMetrics(ds: Dataset): (r: bool)
    ensures r ==> ds.name.Some? && |UsageMetrics| <= |ds.name.value|
  {
    Contains(Lower(ds.name.GetOr("")), UsageMetrics)
  }

  /** A dataset is a usage-metrics report exactly when the phrase occurs at
      some position of its lower-cased name. */
  lemma UsageMetricsAtSomeIndex(ds: Dataset)
    ensures IsUsageMetrics(ds) <==> exists i: nat :: OccursAt(Lower(ds.name.GetOr("")), UsageMetrics, i)
  {
    ContainsAt(Lower(ds.name.GetOr("")), UsageMetrics);
  }

  /** `a` is `b` with some elements left out, the rest in their order. */
  ghost predicate IsSubsequence<T>(a: seq<T>, b: seq<T>)
    decreases |b|
  {
    if a == [] then true
    else if b == [] then false
    else (a[0] == b[0] && IsSubsequence(a[1..], b[1..])) || IsSubsequence(a, b[1..])
  }

  /** The list comprehension: keep the datasets that are not usage-metrics
      reports, in their order. */
  function WithoutUsageMetrics(all: seq<Dataset>): (kept: seq<Dataset>)
    ensures |kept| <= |all|
    ensures forall i :: 0 <= i < |kept| ==> !IsUsageMetrics(kept[i])
    decreases |all|
  {
    if all == [] then []
    else
      var rest := WithoutUsageMetrics(all[1..]);
      if IsUsageMetrics(all[0]) then rest else [all[0]] + rest
  }

  /** The kept datasets keep their relative order. */
  lemma {:induction false} KeptInOrder(all: seq<Dataset>)
    ensures IsSubsequence(WithoutUsageMetrics(all), all)
    decreases |all|
  {
    if all != [] {
      var rest := WithoutUsageMetrics(all[1..]);
      KeptInOrder(all[1..]);
      if !IsUsageMetrics(all[0]) {
        assert ([all[0]] + rest)[1..] == rest;
      }
    }
  }

  /** A dataset is kept exactly when it is in the input and is not a
      usage-metrics report; so every dropped dataset is one. */
  lemma {:induction false} KeptExactly(all: seq<Dataset>, ds: Dataset)
    ensures ds in WithoutUsageMetrics(all) <==> ds in all && !IsUsageMetrics(ds)
    decreases |all|
  {
    if all != [] {
      KeptExactly(all[1..], ds);
      assert all == [all[0]] + all[1..];
    }
  }

  /** The filter looks at one dataset at a time. */
  lemma FilterCons(ds: Dataset, rest: seq<Dataset>)
    ensures WithoutUsageMetrics([ds] + rest) ==
            (if IsUsageMetrics(ds) then [] else [ds]) + WithoutUsageMetrics(rest)
  {
    assert ([ds] + rest)[1..] == rest;
  }

  /** Filtering a concatenation filters each part. */
  lemma {:induction false} FilterConcat(a: seq<Dataset>, b: seq<Dataset>)
    ensures WithoutUsageMetrics(a + b) == WithoutUsageMetrics(a) + WithoutUsageMetrics(b)
    decreases |a|
  {
    if a == [] {
      assert a + b == b;
    } else {
      var x, tail := a[0], a[1..];
      assert a == [x] + tail;
      assert a + b == [x] + (tail + b);
      FilterConcat(tail, b);
      FilterCons(x, tail + b);
      FilterCons(x, tail);
      if !IsUsageMetrics(x) {
        var wt, wb := WithoutUsageMetrics(tail), WithoutUsageMetrics(b);
        assert [x] + (wt + wb) == ([x] + wt) + wb;
      }
    }
  }

  /** A list without usage-metrics reports comes back unchanged. */
  lemma {:induction false} FilterKeepsClean(all: seq<Dataset>)
    requires forall i :: 0 <= i < |all| ==> !IsUsageMetrics(all[i])
    ensures WithoutUsageMetrics(all) == all
    decreases |all|
  {
    if all != [] {
      FilterKeepsClean(all[1..]);
    }
  }

  /** The match ignores case: a name with `usage metrics` in any casing,
      anywhere in it, is dropped. */
  lemma DroppedInAnyCase(id: string, before: string, phrase: string, after: string)
    requires Lower(phrase) == UsageMetrics
    ensures IsUsageMetrics(Dataset(id, Some(before + phrase + after)))
  {
    LowerConcat(before, phrase);
    LowerConcat(before + phrase, after);
    ContainsInfix(Lower(before), UsageMetrics, Lower(after));
  }

  /** Worked example: `Usage Metrics Report` is dropped. */
  lemma UsageMetricsReportDropped(id: string)
    ensures IsUsageMetrics(Dataset(id, Some("Usage Metrics Report")))
  {
    assert "Usage Metrics Report" == "" + "Usage Metrics" + " Report";
    assert Lower("Usage Metrics") == UsageMetrics;
    DroppedInAnyCase(id, "", "Usage Metrics", " Report");
  }
}
