/** `compare_regions(a, b)`. */
module Compare {
  import opened Types
  import opened Aggregation
  import opened Alignment
  import opened Scoring
  import opened Report
  import opened Resolver
  import opened Fetcher

  const LoadError: string := "Error loading data for one or both regions."

  /** How a call ends: with the report text, or with the exception that
      `make_request` raised and `compare_regions` does not catch. */
  datatype Outcome = Returned(text: string) | Threw(message: string)

  /** Resolve a zip to its state, build the dataset URL and fetch it. `lookup`
      stands for the lookup service, keyed by request URL; `store` stands for
      the dataset server, keyed by dataset URL. */
  function FetchRegion(zip: string, lookup: string -> LookupOutcome, store: string -> Reply): (r: FetchResult)
    ensures r == NoneResult <==> PickledNone(zip, lookup, store)
    ensures var url := DatasetUrl(StateFromZip(lookup(LookupUrl(zip))), zip);
      && (r.Fetched? ==> store(url).Reply? && store(url).body == Table(r.rows) && IsSuccess(store(url).status))
      && (store(url).Reply? && IsSuccess(store(url).status) && store(url).body.Table? ==> r.Fetched?)
  {
    var url := DatasetUrl(StateFromZip(lookup(LookupUrl(zip))), zip);
    BuiltUrlOutcomes(StateFromZip(lookup(LookupUrl(zip))), zip, store(url));
    MakeRequest(url, store(url))
  }

  /** Aggregate, align, score and format two fetched tables, with the combined
      frame's rows in the order `order` gives. */
  function Analyse(rowsA: seq<Household>, rowsB: seq<Household>, order: seq<GroupKey>,
                   rendering: Rendering): (text: string)
    ensures text == NoDifferences <==>
      Select(Frame(Align(GroupSizes(rowsA), GroupSizes(rowsB)), order)) == []
    ensures text != NoDifferences ==> |text| > |Header| && text[..|Header| + 1] == Header + "\n"
  {
    var frame := Frame(Align(GroupSizes(rowsA), GroupSizes(rowsB)), order);
    var sel, m, v := Select(frame), MeanDiff(frame), PopVar(frame);
    ReportOpening(sel, m, v, rendering);
    JoinLines(ReportLines(sel, m, v, rendering))
  }

  /** The whole comparison as a value: the fetch exception escapes, a `None`
      table gives the load error, two tables give their report. */
  function CompareSpec(a: string, b: string, lookup: string -> LookupOutcome,
                       store: string -> Reply, rendering: Rendering, order: seq<GroupKey>): (o: Outcome)
    ensures o.Threw? ==> o.message == FetchErrorMessage
    ensures o.Returned? && o.text != LoadError ==>
      FetchRegion(a, lookup, store).Fetched? && FetchRegion(b, lookup, store).Fetched?
  {
    var dfA := FetchRegion(a, lookup, store);
    if dfA.Raised? then Threw(FetchErrorMessage)
    else
      var dfB := FetchRegion(b, lookup, store);
      if dfB.Raised? then Threw(FetchErrorMessage)
      else if dfA.NoneResult? || dfB.NoneResult? then Returned(LoadError)
      else Returned(Analyse(dfA.rows, dfB.rows, order, rendering))
  }

  /** Runs the comparison step by step. The combined frame's row order is
      whatever OrderKeys picks; it is handed back as `order`. */
  method CompareRegions(a: string, b: string, lookup: string -> LookupOutcome,
                        store: string -> Reply, rendering: Rendering)
    returns (outcome: Outcome, ghost order: seq<GroupKey>)
    ensures outcome == CompareSpec(a, b, lookup, store, rendering, order)
    ensures FetchRegion(a, lookup, store).Fetched? && FetchRegion(b, lookup, store).Fetched? ==>
      IsEnumeration(order, ObservedKeys(FetchRegion(a, lookup, store).rows)
                           + ObservedKeys(FetchRegion(b, lookup, store).rows))
  {
    order := [];
    var stateA := StateFromZip(lookup(LookupUrl(a)));
    var stateB := StateFromZip(lookup(LookupUrl(b)));

    var urlA := DatasetUrl(stateA, a);
    var dfA := MakeRequest(urlA, store(urlA));
    if dfA.Raised? {
      outcome := Threw(FetchErrorMessage);
      return;
    }
    var urlB := DatasetUrl(stateB, b);
    var dfB := MakeRequest(urlB, store(urlB));
    if dfB.Raised? {
      outcome := Threw(FetchErrorMessage);
      return;
    }

    if dfA.NoneResult? || dfB.NoneResult? {
      outcome := Returned(LoadError);
      return;
    }

    var aggA := Aggregate(dfA.rows);
    var aggB := Aggregate(dfB.rows);
    var combined := Align(aggA, aggB);
    var keys := OrderKeys(combined.Keys);
    var frame := Frame(combined, keys);
    var selected := Select(frame);
    var text := FormatReport(selected, MeanDiff(frame), PopVar(frame), rendering);
    outcome := Returned(text);
    order := keys;
  }

  /** The call raises exactly when one of the two fetches raises; region B's
      fetch only matters once region A's has not raised. */
  lemma RaisesIffFetchRaises(a: string, b: string, lookup: string -> LookupOutcome,
                             store: string -> Reply, rendering: Rendering, order: seq<GroupKey>)
    ensures CompareSpec(a, b, lookup, store, rendering, order).Threw? <==>
      FetchRegion(a, lookup, store).Raised? || FetchRegion(b, lookup, store).Raised?
    ensures CompareSpec(a, b, lookup, store, rendering, order).Threw? ==>
      CompareSpec(a, b, lookup, store, rendering, order).message == FetchErrorMessage
  {
  }

  /** Neither shape a report can have spells the load-error message. */
  lemma OpeningIsNotLoadError(text: string)
    requires text == NoDifferences || (|text| > |Header| && text[..|Header| + 1] == Header + "\n")
    ensures text != LoadError
  {
  }

  /** A report is never the load-error message: it is either the "no
      differences" line or starts with the header. */
  lemma ReportIsNotLoadError(rowsA: seq<Household>, rowsB: seq<Household>, order: seq<GroupKey>,
                             rendering: Rendering)
    ensures Analyse(rowsA, rowsB, order, rendering) != LoadError
  {
    var frame := Frame(Align(GroupSizes(rowsA), GroupSizes(rowsB)), order);
    var sel, m, v := Select(frame), MeanDiff(frame), PopVar(frame);
    ReportOpening(sel, m, v, rendering);
    OpeningIsNotLoadError(JoinLines(ReportLines(sel, m, v, rendering)));
  }

  /** "Error loading data for one or both regions." comes back exactly when
      neither fetch raises and one of the downloads unpickles to `None`: the
      `.pkl` suffix check can never produce it for the URLs built here. */
  lemma LoadErrorIffPickledNone(a: string, b: string, lookup: string -> LookupOutcome,
                                store: string -> Reply, rendering: Rendering, order: seq<GroupKey>)
    ensures CompareSpec(a, b, lookup, store, rendering, order) == Returned(LoadError) <==>
      && !FetchRegion(a, lookup, store).Raised?
      && !FetchRegion(b, lookup, store).Raised?
      && (PickledNone(a, lookup, store) || PickledNone(b, lookup, store))
  {
    var stateA := StateFromZip(lookup(LookupUrl(a)));
    var stateB := StateFromZip(lookup(LookupUrl(b)));
    BuiltUrlOutcomes(stateA, a, store(DatasetUrl(stateA, a)));
    BuiltUrlOutcomes(stateB, b, store(DatasetUrl(stateB, b)));
    var dfA, dfB := FetchRegion(a, lookup, store), FetchRegion(b, lookup, store);
    if dfA.Fetched? && dfB.Fetched? {
      ReportIsNotLoadError(dfA.rows, dfB.rows, order, rendering);
    }
  }

  /** The dataset server answered region `zip`'s URL with a 2xx reply whose
      body unpickles to `None`. */
  ghost predicate PickledNone(zip: string, lookup: string -> LookupOutcome, store: string -> Reply)
  {
    var url := DatasetUrl(StateFromZip(lookup(LookupUrl(zip))), zip);
    store(url).Reply? && IsSuccess(store(url).status) && store(url).body == NoneValue
  }

  /** Two tables with the same group sizes give exactly the "no differences"
      report, whatever the frame order. */
  lemma IdenticalGroupsReportNothing(rowsA: seq<Household>, rowsB: seq<Household>,
                                     order: seq<GroupKey>, rendering: Rendering)
    requires GroupSizes(rowsA) == GroupSizes(rowsB)
    ensures Analyse(rowsA, rowsB, order, rendering) == NoDifferences
  {
    var frame := Frame(Align(GroupSizes(rowsA), GroupSizes(rowsB)), order);
    forall i, j | 0 <= i < |frame| && 0 <= j < |frame| ensures Diff(frame[i]) == Diff(frame[j]) {
      assert frame[i] in frame && frame[j] in frame;
    }
    ConstantDifferencesSelectNothing(frame);
  }

  /** With at most four demographic groups in the union, no group can pass the
      |z| > 2 test, so the report is always "no differences". */
  lemma FewGroupsReportNothing(rowsA: seq<Household>, rowsB: seq<Household>,
                               order: seq<GroupKey>, rendering: Rendering)
    requires |order| <= 4
    ensures Analyse(rowsA, rowsB, order, rendering) == NoDifferences
  {
    var frame := Frame(Align(GroupSizes(rowsA), GroupSizes(rowsB)), order);
    SelectionIsSparse(frame);
  }

  /** Under one shared frame order, `compare_regions(b, a)` flags the groups
      `compare_regions(a, b)` flags, in the same order. */
  lemma SwappedRegionsFlagSameGroups(rowsA: seq<Household>, rowsB: seq<Household>, order: seq<GroupKey>)
    ensures var ab := Select(Frame(Align(GroupSizes(rowsA), GroupSizes(rowsB)), order));
      var ba := Select(Frame(Align(GroupSizes(rowsB), GroupSizes(rowsA)), order));
      |ab| == |ba| && forall i :: 0 <= i < |ab| ==> ab[i].key == ba[i].key
  {
    var frame := Frame(Align(GroupSizes(rowsA), GroupSizes(rowsB)), order);
    FrameOfSwappedSeries(GroupSizes(rowsA), GroupSizes(rowsB), order);
    SelectionSymmetric(frame);
  }

  /** The groups a selection flags. */
  ghost function FlaggedKeys(sel: seq<FrameRow>): set<GroupKey>
  {
    set r | r in sel :: r.key
  }

  /** Exchanging the two counts of every row flags the same groups. */
  lemma SwapKeepsKeys(rows: seq<FrameRow>)
    ensures FlaggedKeys(SwapRows(rows)) == FlaggedKeys(rows)
  {
    var sw := SwapRows(rows);
    forall k | k in FlaggedKeys(sw) ensures k in FlaggedKeys(rows) {
      var i :| 0 <= i < |sw| && sw[i].key == k;
      assert rows[i] in rows;
    }
    forall k | k in FlaggedKeys(rows) ensures k in FlaggedKeys(sw) {
      var i :| 0 <= i < |rows| && rows[i].key == k;
      assert sw[i] in sw;
    }
  }

  /** `compare_regions(b, a)` flags exactly the groups `compare_regions(a, b)`
      flags, each call with whatever row order its combined frame has. */
  lemma SwappedRegionsFlagSameGroupSet(rowsA: seq<Household>, rowsB: seq<Household>,
                                       orderAB: seq<GroupKey>, orderBA: seq<GroupKey>)
    requires IsEnumeration(orderAB, ObservedKeys(rowsA) + ObservedKeys(rowsB))
    requires IsEnumeration(orderBA, ObservedKeys(rowsB) + ObservedKeys(rowsA))
    ensures FlaggedKeys(Select(Frame(Align(GroupSizes(rowsA), GroupSizes(rowsB)), orderAB)))
         == FlaggedKeys(Select(Frame(Align(GroupSizes(rowsB), GroupSizes(rowsA)), orderBA)))
  {
    var ga, gb := GroupSizes(rowsA), GroupSizes(rowsB);
    assert ga.Keys == ObservedKeys(rowsA) && gb.Keys == ObservedKeys(rowsB);
    var ab, ba := Align(ga, gb), Align(gb, ga);
    var frame := Frame(ab, orderAB);
    FrameOfSwappedSeries(ga, gb, orderAB);
    SelectionSymmetric(frame);
    SwapKeepsKeys(Select(frame));
    assert FlaggedKeys(Select(frame)) == FlaggedKeys(Select(Frame(ba, orderAB)));
    FrameOrderIrrelevant(ba, orderAB, orderBA);
  }
}
