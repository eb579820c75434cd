/**
 * The pure derivations of the dashboard (components/dashboard-content.tsx):
 * roadmap progress, the track caption, priority badges, the five-item
 * preview and the fallbacks for missing fields.
 */
module Dashboard {
  import opened Wrappers
  import Catalog

  datatype RoadmapItem = RoadmapItem(title: string, completed: bool, priority: string)

  /** The items marked completed, in their original order. */
  function CompletedItems(items: seq<RoadmapItem>): (r: seq<RoadmapItem>)
    ensures |r| <= |items|
    ensures |r| == |items| <==> forall i :: 0 <= i < |items| ==> items[i].completed
    ensures |r| == 0 <==> forall i :: 0 <= i < |items| ==> !items[i].completed
    ensures forall x :: x in r ==> x.completed && x in items
    ensures forall x :: x in items && x.completed ==> x in r
  {
    if |items| == 0 then []
    else
      var rest := CompletedItems(items[1..]);
      assert forall i :: 1 <= i < |items| ==> items[i] == items[1..][i - 1];
      if items[0].completed then [items[0]] + rest else rest
  }

  /** `completedItems`: how many roadmap items are completed. */
  function CompletedCount(items: seq<RoadmapItem>): (n: nat)
    ensures n <= |items|
    ensures n == |items| <==> forall i :: 0 <= i < |items| ==> items[i].completed
    ensures n == 0 <==> forall i :: 0 <= i < |items| ==> !items[i].completed
  {
    |CompletedItems(items)|
  }

  /** `progressPercentage`, exactly; `None` stands for the NaN that dividing by an empty roadmap gives. */
  function ProgressPercentage(items: seq<RoadmapItem>): (p: Option<real>)
    ensures p.None? <==> |items| == 0
    ensures p.Some? ==> 0.0 <= p.value <= 100.0
    ensures p.Some? ==> (p.value == 100.0 <==> forall i :: 0 <= i < |items| ==> items[i].completed)
    ensures p.Some? ==> (p.value == 0.0 <==> forall i :: 0 <= i < |items| ==> !items[i].completed)
  {
    if |items| == 0 then None
    else
      Some(Percent(CompletedCount(items), |items|))
  }

  /** `(part / whole) * 100` for `part <= whole`. */
  function Percent(part: nat, whole: nat): (p: real)
    requires whole > 0 && part <= whole
    ensures 0.0 <= p <= 100.0
    ensures p == 100.0 <==> part == whole
    ensures p == 0.0 <==> part == 0
  {
    var q := part as real / whole as real;
    assert q * whole as real == part as real;
    q * 100.0
  }

  /** The caption of the track badge. */
  function TrackLabel(track: string): (caption: string)
    ensures caption in {"FAANG", "Startup", "Balanced"}
    ensures caption == "FAANG" <==> track == "faang"
    ensures caption == "Startup" <==> track == "startup"
  {
    if track == "faang" then "FAANG" else if track == "startup" then "Startup" else "Balanced"
  }

  /** The badge variant of a roadmap item's priority. */
  function BadgeVariant(priority: string): (variant: string)
    ensures variant in {"destructive", "default", "secondary"}
    ensures variant == "destructive" <==> priority == "high"
    ensures variant == "default" <==> priority == "medium"
  {
    if priority == "high" then "destructive" else if priority == "medium" then "default" else "secondary"
  }

  /** `roadmapItems.slice(0, 5)`: the first five items, or all if fewer. */
  function Preview(items: seq<RoadmapItem>): (r: seq<RoadmapItem>)
    ensures |r| == if |items| < 5 then |items| else 5
    ensures forall i :: 0 <= i < |r| ==> r[i] == items[i]
  {
    if |items| < 5 then items else items[..5]
  }

  /** `value || fallback` for an optional string field: an absent or empty
      value shows the fallback, any other value is shown unchanged. */
  function ShowOr(value: Option<string>, fallback: string): (shown: string)
    ensures value.Some? && value.value != "" ==> shown == value.value
    ensures value.None? || value.value == "" ==> shown == fallback
  {
    match value
    case Some(v) => if v != "" then v else fallback
    case None => fallback
  }

  /** The Timeline card. */
  function TimelineShown(timeline: Option<string>): (shown: string)
    ensures timeline.None? || timeline.value == "" ==> shown == "3 months"
    ensures timeline.Some? && timeline.value != "" ==> shown == timeline.value
  {
    ShowOr(timeline, "3 months")
  }

  /** The Weekly Hours card. */
  function WeeklyHoursShown(timeCommitment: Option<string>): (shown: string)
    ensures timeCommitment.None? || timeCommitment.value == "" ==> shown == "10-20"
    ensures timeCommitment.Some? && timeCommitment.value != "" ==> shown == timeCommitment.value
  {
    ShowOr(timeCommitment, "10-20")
  }

  /** Each of the catalog's three track options gets its own caption. */
  lemma TrackOptionsGetDistinctLabels()
    ensures Catalog.Questions[0].id == "track"
    ensures |Catalog.Questions[0].options| == 3
    ensures forall i, j :: 0 <= i < j < 3 ==>
      TrackLabel(Catalog.Questions[0].options[i]) != TrackLabel(Catalog.Questions[0].options[j])
  {
  }

  /** The completed count of a concatenation is the sum of the parts' counts. */
  lemma {:induction false} CompletedCountAppend(items: seq<RoadmapItem>, more: seq<RoadmapItem>)
    ensures CompletedCount(items + more) == CompletedCount(items) + CompletedCount(more)
    decreases |items|
  {
    if |items| == 0 {
      assert items + more == more;
    } else {
      assert (items + more)[0] == items[0];
      assert (items + more)[1..] == items[1..] + more;
      CompletedCountAppend(items[1..], more);
    }
  }

  /** A single item is kept exactly when it is completed. */
  lemma CompletedItemsOne(x: RoadmapItem)
    ensures CompletedItems([x]) == if x.completed then [x] else []
  {
    assert [x][1..] == [];
  }

  /** The filter distributes over concatenation, so completed items keep
      their original order. */
  lemma {:induction false} CompletedItemsConcat(items: seq<RoadmapItem>, more: seq<RoadmapItem>)
    ensures CompletedItems(items + more) == CompletedItems(items) + CompletedItems(more)
    decreases |items|
  {
    if |items| == 0 {
      assert items + more == more;
    } else {
      assert (items + more)[0] == items[0];
      assert (items + more)[1..] == items[1..] + more;
      CompletedItemsConcat(items[1..], more);
    }
  }

  /** The completed count around one item: the parts before and after it, plus the item itself. */
  lemma CountAround(before: seq<RoadmapItem>, x: RoadmapItem, after: seq<RoadmapItem>)
    ensures CompletedCount(before + [x] + after)
         == CompletedCount(before) + (if x.completed then 1 else 0) + CompletedCount(after)
  {
    CompletedCountAppend(before + [x], after);
    CompletedCountAppend(before, [x]);
  }

  /** Marking one open item completed raises the completed count by one. */
  lemma CompletingAnItemCountsIt(items: seq<RoadmapItem>, i: nat)
    requires i < |items| && !items[i].completed
    ensures CompletedCount(items[i := items[i].(completed := true)]) == CompletedCount(items) + 1
  {
    var done := items[i := items[i].(completed := true)];
    assert items == items[..i] + [items[i]] + items[i + 1..];
    assert done == items[..i] + [done[i]] + items[i + 1..];
    CountAround(items[..i], items[i], items[i + 1..]);
    CountAround(items[..i], done[i], items[i + 1..]);
  }

  /** Marking one open item completed strictly raises the progress percentage. */
  lemma CompletingAnItemRaisesProgress(items: seq<RoadmapItem>, i: nat)
    requires i < |items| && !items[i].completed
    ensures ProgressPercentage(items[i := items[i].(completed := true)]).value
          > ProgressPercentage(items).value
  {
    var done := items[i := items[i].(completed := true)];
    CompletingAnItemCountsIt(items, i);
    var c := CompletedCount(items);
    assert |done| == |items|;
    assert ProgressPercentage(done) == Some(Percent(c + 1, |items|));
    assert ProgressPercentage(items) == Some(Percent(c, |items|));
    PercentIncreases(c, |items|);
  }

  /** One more completed item out of the same total gives a higher percentage. */
  lemma PercentIncreases(part: nat, whole: nat)
    requires whole > 0 && part < whole
    ensures Percent(part + 1, whole) > Percent(part, whole)
  {
    var a := part as real / whole as real;
    var b := (part + 1) as real / whole as real;
    assert a * whole as real == part as real;
    assert b * whole as real == (part + 1) as real;
    assert b > a;
  }

  /** The example roadmap the dashboard shows. */
  const ExampleRoadmap: seq<RoadmapItem> := [
    RoadmapItem("Master Data Structures", true, "high"),
    RoadmapItem("Algorithm Patterns", false, "high"),
    RoadmapItem("System Design Basics", false, "medium"),
    RoadmapItem("Mock Interviews", false, "high"),
    RoadmapItem("Build Portfolio Projects", false, "high"),
    RoadmapItem("Learn Modern Frameworks", false, "medium"),
    RoadmapItem("Deploy Applications", false, "medium"),
    RoadmapItem("Open Source Contributions", false, "low")
  ]

  /** On the example data: one of eight items done, 12.5 percent, five previewed. */
  lemma ExampleDashboard()
    ensures CompletedCount(ExampleRoadmap) == 1
    ensures ProgressPercentage(ExampleRoadmap) == Some(12.5)
    ensures |Preview(ExampleRoadmap)| == 5
  {
    assert ExampleRoadmap == ExampleRoadmap[..1] + ExampleRoadmap[1..];
    CompletedCountAppend(ExampleRoadmap[..1], ExampleRoadmap[1..]);
    assert CompletedCount(ExampleRoadmap[1..]) == 0;
  }
}
