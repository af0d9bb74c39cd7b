/** DroidDynaSearch/src/main/java/phd/research/appium/Traversal.java: the exploration
    policy. Per activity a table maps a control's centre to (clicks, leaf); the next
    control is the first one never seen, otherwise the one with the fewest clicks that is
    not a dead end; a click is booked in the table and in the `Tracker` counters, which
    decide when the run stops. The answers of the device are inputs. */
module Traversal {
  import opened Wrappers
  import opened JStrings
  import opened AppiumManager

  // ---------------------------------------------------------------- the Tracker

  /** A message handed to `LogHandler.handleMessage`: an interaction marker with its
      count, the clicked control's id when there is one, and its info text. */
  datatype Message = Message(count: int, id: Option<string>, info: string)

  /** The counters `continueTraversal` reads and writes. */
  datatype Counters = Counters(last: int, count: int, stalled: int)

  /** The counters after one `continueTraversal` check. */
  function Checked(c: Counters): (d: Counters)
    ensures d.count == c.count && d.last == c.count
    ensures c.last == c.count ==> d.stalled == c.stalled + 1
    ensures c.last != c.count ==> d.stalled == 0
  {
    if c.last == c.count then c.(stalled := c.stalled + 1) else c.(last := c.count, stalled := 0)
  }

  /** The stop rule applied to checked counters: stop when the stall counter EQUALS its
      limit or the interaction budget is spent. */
  predicate Continues(d: Counters, maxNoInteractionCount: int, maxInteractionCount: int) {
    d.stalled != maxNoInteractionCount && d.count < maxInteractionCount
  }

  /** k checks in a row without any interaction in between. */
  function Stalled(c: Counters, k: nat): (d: Counters)
    ensures d.count == c.count
    decreases k
  {
    if k == 0 then c else Checked(Stalled(c, k - 1))
  }

  /** Without interactions the run stops after at most `maxNoInteractionCount` + 1 checks,
      provided the stall counter has not already passed its limit. */
  lemma {:induction false} StallStops(c: Counters, maxNoInteractionCount: int, maxInteractionCount: int)
    requires 1 <= maxNoInteractionCount && 0 <= c.stalled < maxNoInteractionCount
    ensures var k := if c.last == c.count then maxNoInteractionCount - c.stalled else maxNoInteractionCount + 1;
      !Continues(Stalled(c, k), maxNoInteractionCount, maxInteractionCount)
  {
    if c.last == c.count {
      StalledCount(c, maxNoInteractionCount - c.stalled);
    } else {
      var d := Checked(c);
      StalledShift(c, maxNoInteractionCount);
      StalledCount(d, maxNoInteractionCount);
    }
  }

  /** From settled counters, k stalled checks add k to the stall counter. */
  lemma {:induction false} StalledCount(c: Counters, k: nat)
    requires c.last == c.count
    ensures Stalled(c, k) == c.(stalled := c.stalled + k)
    decreases k
  {
    if k > 0 {
      StalledCount(c, k - 1);
    }
  }

  /** k + 1 checks are one check followed by k. */
  lemma {:induction false} StalledShift(c: Counters, k: nat)
    ensures Stalled(c, k + 1) == Stalled(Checked(c), k)
    decreases k
  {
    if k > 0 {
      StalledShift(c, k - 1);
    }
  }

  /** Once the stall counter has passed its limit the equality test never fires again:
      only the interaction budget can stop the run. */
  lemma {:induction false} OvershootNeverStalls(c: Counters, k: nat, maxNoInteractionCount: int)
    requires c.last == c.count && c.stalled > maxNoInteractionCount
    ensures Stalled(c, k).stalled != maxNoInteractionCount
  {
    StalledCount(c, k);
  }

  /** `Tracker`: the static counters, shared by the whole run, and the messages handed to
      the log since the counters were last reset. */
  class Tracker {
    const maxInteractionCount: int
    const maxNoInteractionCount: int
    var lastInteractionCount: int
    var interactionCount: int
    var noInteractionCount: int
    var messages: seq<Message>

    /** Every interaction sent exactly one message, numbered 1, 2, 3, ... */
    ghost predicate Valid()
      reads this
    {
      |messages| == interactionCount && forall i | 0 <= i < |messages| :: messages[i].count == i + 1
    }

    function Counts(): Counters
      reads this
    {
      Counters(lastInteractionCount, interactionCount, noInteractionCount)
    }

    constructor(maxInteractionCount: int, maxNoInteractionCount: int)
      ensures this.maxInteractionCount == maxInteractionCount && this.maxNoInteractionCount == maxNoInteractionCount
      ensures Counts() == Counters(0, 0, 0) && messages == [] && Valid()
    {
      this.maxInteractionCount := maxInteractionCount;
      this.maxNoInteractionCount := maxNoInteractionCount;
      lastInteractionCount, interactionCount, noInteractionCount := 0, 0, 0;
      messages := [];
    }

    /** `reset()` */
    method Reset()
      modifies this
      ensures Counts() == Counters(0, 0, 0) && messages == [] && Valid()
    {
      lastInteractionCount, interactionCount, noInteractionCount := 0, 0, 0;
      messages := [];
    }

    /** One interaction: the counter goes up and the marker carrying it is sent. */
    method Interact(id: Option<string>, info: string)
      requires Valid()
      modifies this
      ensures Valid()
      ensures interactionCount == old(interactionCount) + 1
      ensures messages == old(messages) + [Message(interactionCount, id, info)]
      ensures lastInteractionCount == old(lastInteractionCount) && noInteractionCount == old(noInteractionCount)
    {
      interactionCount := interactionCount + 1;
      messages := messages + [Message(interactionCount, id, info)];
    }

    /** `continueTraversal()` */
    method ContinueTraversal() returns (go: bool)
      modifies this
      ensures Counts() == Checked(old(Counts())) && messages == old(messages)
      ensures go == Continues(Counts(), maxNoInteractionCount, maxInteractionCount)
    {
      if lastInteractionCount == interactionCount {
        noInteractionCount := noInteractionCount + 1;
      } else {
        lastInteractionCount := interactionCount;
        noInteractionCount := 0;
      }
      if noInteractionCount == maxNoInteractionCount {
        return false;
      }
      if interactionCount >= maxInteractionCount {
        return false;
      }
      return true;
    }
  }

  // ---------------------------------------------------------------- choosing a control

  /** `Pair<Integer, Boolean>`: how often a control was clicked and whether a click on it
      stayed on the same activity (a leaf). */
  datatype Stats = Stats(clicks: int, leaf: bool)

  /** The controls seen on one activity, by centre. */
  type Table = map<Point, Stats>

  /** A control already clicked whose click leads nowhere new. */
  predicate DeadEnd(s: Stats) {
    s.leaf && s.clicks > 0
  }

  /** `controls.getOrDefault(activity, new HashMap<>())` */
  function TableOf(controls: map<string, Table>, activity: string): Table {
    if activity in controls then controls[activity] else map[]
  }

  /** The first element from index `from` on whose centre the table does not hold. */
  function FirstUnseen(table: Table, cs: seq<Element>, from: nat): (r: Option<nat>)
    requires from <= |cs|
    ensures r.Some? ==> from <= r.value < |cs| && cs[r.value].center !in table
                        && forall j | from <= j < r.value :: cs[j].center in table
    ensures r.None? ==> forall j | from <= j < |cs| :: cs[j].center in table
    decreases |cs| - from
  {
    if from == |cs| then None
    else if cs[from].center !in table then Some(from)
    else FirstUnseen(table, cs, from + 1)
  }

  /** The candidate after the loop has looked at the first n elements, starting from
      element 0: a dead end is skipped, and a strictly smaller click count takes over. */
  function Best(table: Table, cs: seq<Element>, n: nat): (b: nat)
    requires 0 < |cs| && n <= |cs| && forall j | 0 <= j < |cs| :: cs[j].center in table
    ensures b < |cs| && (b == 0 || b < n)
    decreases n
  {
    if n == 0 then 0
    else
      var b := Best(table, cs, n - 1);
      var s := table[cs[n - 1].center];
      if DeadEnd(s) then b
      else if s.clicks < table[cs[b].center].clicks then n - 1 else b
  }

  function Clicks(table: Table, cs: seq<Element>, j: nat): int
    requires j < |cs| && cs[j].center in table
  {
    table[cs[j].center].clicks
  }

  /** The candidate has no more clicks than element 0 nor than any live element looked at;
      it is element 0 or the leftmost live element with its click count, which is then
      strictly below element 0's. So element 0 wins ties and is kept even as a dead end. */
  lemma {:induction false} BestIsLeftmostMinimum(table: Table, cs: seq<Element>, n: nat)
    requires 0 < |cs| && n <= |cs| && forall j | 0 <= j < |cs| :: cs[j].center in table
    ensures var b := Best(table, cs, n);
      Clicks(table, cs, b) <= Clicks(table, cs, 0)
      && (forall j | 0 <= j < n && !DeadEnd(table[cs[j].center]) :: Clicks(table, cs, b) <= Clicks(table, cs, j))
      && (b == 0 || (!DeadEnd(table[cs[b].center]) && Clicks(table, cs, b) < Clicks(table, cs, 0)
                     && forall j | 0 <= j < b && !DeadEnd(table[cs[j].center]) :: Clicks(table, cs, b) < Clicks(table, cs, j)))
    decreases n
  {
    if n > 0 {
      BestIsLeftmostMinimum(table, cs, n - 1);
    }
  }

  /** The index `chooseNextControl` returns, for a non-empty list. */
  function ChoiceIndex(table: Table, cs: seq<Element>): (i: nat)
    requires 0 < |cs|
    ensures i < |cs|
  {
    match FirstUnseen(table, cs, 0)
    case Some(u) => u
    case None => Best(table, cs, |cs|)
  }

  /** The table afterwards: an element never seen before is recorded as (0, false). */
  function Recorded(table: Table, cs: seq<Element>): (t: Table)
    ensures FirstUnseen(table, cs, 0).None? ==> t == table
    ensures FirstUnseen(table, cs, 0).Some? ==>
              var p := cs[FirstUnseen(table, cs, 0).value].center;
              p !in table && t == table[p := Stats(0, false)]
  {
    match FirstUnseen(table, cs, 0)
    case Some(u) => table[cs[u].center := Stats(0, false)]
    case None => table
  }

  /** Whatever is chosen ends up in the table, and a newly chosen control has no clicks. */
  lemma ChoiceRecorded(table: Table, cs: seq<Element>)
    requires 0 < |cs|
    ensures var t, i := Recorded(table, cs), ChoiceIndex(table, cs);
      cs[i].center in t && table.Keys <= t.Keys
      && (cs[i].center !in table ==> t[cs[i].center] == Stats(0, false) && forall j | 0 <= j < i :: cs[j].center in table)
      && (cs[i].center in table ==> t == table)
  {
  }

  /** Choosing a control never seen before and then clicking it leaves it with exactly
      one click and the leaf flag of that click; a control seen before gains one click. */
  lemma ChosenThenClicked(controls: map<string, Table>, activity: string, cs: seq<Element>, leaf: bool)
    requires 0 < |cs|
    ensures var table := TableOf(controls, activity);
      var p := cs[ChoiceIndex(table, cs)].center;
      var after := Clicked(controls[activity := Recorded(table, cs)], activity, p, leaf);
      (p !in table ==> after[activity][p] == Stats(1, leaf))
      && (p in table ==> after[activity][p].clicks == table[p].clicks + 1)
  {
  }

  // ---------------------------------------------------------------- clicking a control

  /** The id logged for a control: the second '/'-separated part of its resource id
      (which throws when there is none), or its centre's digits when it has no resource id. */
  function ControlId(e: Element): (r: Result<string>)
    ensures r.Err? ==> r.error == IndexOutOfBounds && Attribute(e, "resourceId").Some?
  {
    match Attribute(e, "resourceId")
    case None => Ok(IntToString(e.center.x) + IntToString(e.center.y))
    case Some(id) =>
      var parts := Split(id, '/');
      if |parts| < 2 then Err(IndexOutOfBounds) else Ok(parts[1])
  }

  /** A resource id "package:id/name" gives back its name. */
  lemma ControlIdRoundTrip(e: Element, prefix: string, name: string)
    requires '/' !in prefix && '/' !in name && name != ""
    requires Attribute(e, "resourceId") == Some(prefix + "/" + name)
    ensures ControlId(e) == Ok(name)
  {
    SplitTwo(prefix, name, '/');
  }

  /** Splitting "a/b", with no '/' in a or b and b not empty, gives a and b. */
  lemma SplitTwo(a: string, b: string, sep: char)
    requires sep !in a && sep !in b && b != ""
    ensures Split(a + [sep] + b, sep) == [a, b]
  {
    PiecesTwo(a, b, sep);
  }

  lemma {:induction false} PiecesTwo(a: string, b: string, sep: char)
    requires sep !in a && sep !in b
    ensures Pieces(a + [sep] + b, sep) == [a, b]
    decreases |b|
  {
    var s := a + [sep] + b;
    if b == [] {
      PiecesNone(a, sep);
      assert s[..|s| - 1] == a;
    } else {
      var init := b[..|b| - 1];
      PiecesTwo(a, init, sep);
      assert s[..|s| - 1] == a + [sep] + init;
      assert init + [b[|b| - 1]] == b;
    }
  }

  lemma {:induction false} PiecesNone(a: string, sep: char)
    requires sep !in a
    ensures Pieces(a, sep) == [a]
    decreases |a|
  {
    if a != [] {
      var init := a[..|a| - 1];
      PiecesNone(init, sep);
      assert init + [a[|a| - 1]] == a;
    }
  }

  /** What the device reports around a click. */
  datatype ClickEnvironment = ClickEnvironment(activityBefore: string, activityAfter: string, packageAfter: string)

  /** A click is a leaf when the activity did not change, and always when the app was left. */
  function Leaf(env: ClickEnvironment, launchPackage: string): bool {
    env.activityAfter == env.activityBefore || !StartsWith(env.packageAfter, launchPackage)
  }

  /** The interactions a real click counts: the click, a hidden keyboard for an
      "EditText", and a back press when the app was left. */
  function ClickCost(controlClass: string, env: ClickEnvironment, launchPackage: string): (n: nat)
    ensures 1 <= n <= 3
    ensures n == 1 <==> !Contains(controlClass, "EditText") && StartsWith(env.packageAfter, launchPackage)
  {
    1 + (if Contains(controlClass, "EditText") then 1 else 0) + (if StartsWith(env.packageAfter, launchPackage) then 0 else 1)
  }

  /** The tables after booking a click on the control at p of `activity`. */
  function Clicked(controls: map<string, Table>, activity: string, p: Point, leaf: bool): (r: map<string, Table>)
    ensures r.Keys == controls.Keys + {activity}
    ensures forall a | a in controls && a != activity :: r[a] == controls[a]
    ensures r[activity].Keys == TableOf(controls, activity).Keys + {p}
    ensures forall q | q in TableOf(controls, activity) && q != p :: r[activity][q] == TableOf(controls, activity)[q]
    ensures p in TableOf(controls, activity) ==>
              r[activity][p] == Stats(TableOf(controls, activity)[p].clicks + 1, TableOf(controls, activity)[p].leaf || leaf)
    ensures p !in TableOf(controls, activity) ==> r[activity][p] == Stats(1, leaf)
  {
    var table := TableOf(controls, activity);
    var stats := if p in table then table[p] else Stats(0, false);
    controls[activity := table[p := Stats(stats.clicks + 1, stats.leaf || leaf)]]
  }

  /** Booking clicks never turns a dead end back into a live control. */
  lemma DeadEndStays(controls: map<string, Table>, activity: string, p: Point, leaf: bool, a: string, q: Point)
    requires a in controls && q in controls[a] && DeadEnd(controls[a][q])
    ensures DeadEnd(Clicked(controls, activity, p, leaf)[a][q])
  {
  }

  class Traversal {
    const tracker: Tracker
    var controls: map<string, Table>
    var initialLaunch: bool
    /** Null until the first launch. */
    var launchActivity: Option<string>
    var launchPackage: Option<string>

    constructor(tracker: Tracker)
      ensures this.tracker == tracker && controls == map[] && initialLaunch
      ensures launchActivity.None? && launchPackage.None?
    {
      this.tracker := tracker;
      controls := map[];
      initialLaunch := true;
      launchActivity := None;
      launchPackage := None;
    }

    /** The bookkeeping of `launchApp()`: one interaction, and on the first launch the
        activity and package the device shows afterwards become the launch ones. */
    method LaunchApp(activity: string, package: string)
      requires tracker.Valid()
      modifies this, tracker
      ensures tracker.Valid() && tracker.interactionCount == old(tracker.interactionCount) + 1
      ensures !initialLaunch && controls == old(controls)
      ensures old(initialLaunch) ==> launchActivity == Some(activity) && launchPackage == Some(package)
      ensures !old(initialLaunch) ==> launchActivity == old(launchActivity) && launchPackage == old(launchPackage)
      ensures tracker.messages[|tracker.messages| - 1].info == if old(initialLaunch) then "launching app" else "relaunching app"
    {
      if initialLaunch {
        tracker.Interact(None, "launching app");
        initialLaunch := false;
        launchActivity := Some(activity);
        launchPackage := Some(package);
      } else {
        tracker.Interact(None, "relaunching app");
      }
    }

    /** `chooseNextControl(activity, controls)`; None stands for null ("press back"). */
    method ChooseNextControl(activity: string, cs: seq<Element>) returns (r: Option<Element>)
      modifies this
      ensures cs == [] ==> r.None? && controls == old(controls)
      ensures cs != [] ==> r == Some(cs[ChoiceIndex(TableOf(old(controls), activity), cs)])
                           && controls == old(controls)[activity := Recorded(TableOf(old(controls), activity), cs)]
      ensures initialLaunch == old(initialLaunch)
      ensures launchActivity == old(launchActivity) && launchPackage == old(launchPackage)
    {
      if |cs| == 0 {
        return None;
      }
      var table := TableOf(controls, activity);
      ghost var start := table;
      var nextControl := cs[0];
      if nextControl.center !in table {
        table := table[nextControl.center := Stats(0, false)];
        controls := controls[activity := table];
        return Some(nextControl);
      }
      ghost var next := 0;
      var i := 0;
      while i < |cs|
        invariant 0 <= i <= |cs| && table == start && controls == old(controls)
        invariant forall j | 0 <= j < i :: cs[j].center in table
        invariant FirstUnseen(table, cs, 0) == FirstUnseen(table, cs, i)
        invariant next < |cs| && nextControl == cs[next] && nextControl.center in table
        invariant FirstUnseen(table, cs, i).None? ==> next == Best(table, cs, i)
      {
        var control := cs[i];
        if control.center in table {
          if !(table[control.center].leaf && table[control.center].clicks > 0) {
            if table[control.center].clicks < table[nextControl.center].clicks {
              nextControl := control;
              next := i;
            }
          }
        } else {
          table := table[control.center := Stats(0, false)];
          controls := controls[activity := table];
          return Some(control);
        }
        i := i + 1;
      }
      controls := controls[activity := table];
      return Some(nextControl);
    }

    /** The bookkeeping of `clickControl(activity, control)`: the interactions it counts,
        and the table entry of the clicked control. */
    method ClickControl(activity: string, control: Option<Element>, env: ClickEnvironment) returns (r: Result<()>)
      requires tracker.Valid()
      modifies this, tracker
      ensures tracker.Valid()
      ensures initialLaunch == old(initialLaunch) && launchActivity == old(launchActivity) && launchPackage == old(launchPackage)
      ensures control.None? ==> r.Ok? && controls == old(controls)
                                && tracker.interactionCount == old(tracker.interactionCount)
                                     + (if launchActivity == Some(activity) then 0 else 1)
      ensures control.Some? && ControlId(control.value).Err? ==>
                r == Err(IndexOutOfBounds) && controls == old(controls)
                && tracker.interactionCount == old(tracker.interactionCount)
      ensures control.Some? && ControlId(control.value).Ok? ==>
                |tracker.messages| > |old(tracker.messages)|
                && tracker.messages[|old(tracker.messages)|]
                   == Message(old(tracker.interactionCount) + 1, Some(ControlId(control.value).value),
                              "clicking " + FixedDescription(control.value))
      ensures control.Some? && ControlId(control.value).Ok? && Attribute(control.value, "class").None? ==>
                r == Err(NullPointer) && controls == old(controls)
                && tracker.interactionCount == old(tracker.interactionCount) + 1
      ensures control.Some? && ControlId(control.value).Ok? && Attribute(control.value, "class").Some?
              && launchPackage.None? ==>
                r == Err(NullPointer) && controls == old(controls)
      ensures control.Some? && ControlId(control.value).Ok? && Attribute(control.value, "class").Some?
              && launchPackage.Some? ==>
                r.Ok?
                && tracker.interactionCount == old(tracker.interactionCount)
                     + ClickCost(Attribute(control.value, "class").value, env, launchPackage.value)
                && controls == Clicked(old(controls), activity, control.value.center, Leaf(env, launchPackage.value))
    {
      if control.None? && Some(activity) == launchActivity {
        return Ok(());
      } else if control.None? {
        tracker.Interact(None, "pressing back");
        return Ok(());
      }
      var element := control.value;
      var id := ControlId(element);
      if id.Err? {
        return Err(id.error);
      }
      r := ClickElement(activity, element, id.value, env);
    }

    /** `clickControl` once the control's id is known: the click is announced, then booked. */
    method ClickElement(activity: string, element: Element, id: string, env: ClickEnvironment) returns (r: Result<()>)
      requires tracker.Valid()
      modifies this, tracker
      ensures tracker.Valid()
      ensures initialLaunch == old(initialLaunch) && launchActivity == old(launchActivity) && launchPackage == old(launchPackage)
      ensures |tracker.messages| > |old(tracker.messages)|
              && tracker.messages[|old(tracker.messages)|]
                 == Message(old(tracker.interactionCount) + 1, Some(id), "clicking " + FixedDescription(element))
      ensures Attribute(element, "class").None? ==>
                r == Err(NullPointer) && controls == old(controls)
                && tracker.interactionCount == old(tracker.interactionCount) + 1
      ensures Attribute(element, "class").Some? && launchPackage.None? ==>
                r == Err(NullPointer) && controls == old(controls)
      ensures Attribute(element, "class").Some? && launchPackage.Some? ==>
                r.Ok?
                && tracker.interactionCount == old(tracker.interactionCount)
                     + ClickCost(Attribute(element, "class").value, env, launchPackage.value)
                && controls == Clicked(old(controls), activity, element.center, Leaf(env, launchPackage.value))
    {
      var controlClass := Attribute(element, "class");
      var controlCentrePoint := element.center;
      tracker.Interact(Some(id), "clicking " + FixedDescription(element));
      if controlClass.None? {
        return Err(NullPointer);
      }
      ghost var before := tracker.messages;
      assert |before| > |old(tracker.messages)|;
      assert before[|old(tracker.messages)|]
             == Message(old(tracker.interactionCount) + 1, Some(id), "clicking " + FixedDescription(element));
      r := BookClick(activity, controlClass.value, controlCentrePoint, env);
      assert before <= tracker.messages;
    }

    /** The rest of `clickControl` for a control with a class: the keyboard, the way
        back into the app, and the table entry. */
    method BookClick(activity: string, controlClass: string, p: Point, env: ClickEnvironment) returns (r: Result<()>)
      requires tracker.Valid()
      modifies this, tracker
      ensures tracker.Valid()
      ensures initialLaunch == old(initialLaunch) && launchActivity == old(launchActivity) && launchPackage == old(launchPackage)
      ensures old(tracker.messages) <= tracker.messages
      ensures launchPackage.None? ==> r == Err(NullPointer) && controls == old(controls)
      ensures launchPackage.Some? ==>
                r.Ok?
                && tracker.interactionCount == old(tracker.interactionCount) + ClickCost(controlClass, env, launchPackage.value) - 1
                && controls == Clicked(old(controls), activity, p, Leaf(env, launchPackage.value))
    {
      if Contains(controlClass, "EditText") {
        tracker.Interact(None, "hiding keyboard");
      }
      var leaf := env.activityAfter == env.activityBefore;
      if launchPackage.None? {
        return Err(NullPointer);
      }
      if !StartsWith(env.packageAfter, launchPackage.value) {
        tracker.Interact(None, "pressing back");
        leaf := true;
      }
      controls := Clicked(controls, activity, p, leaf);
      return Ok(());
    }
  }
}
