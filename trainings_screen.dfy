/** The training-seat screen: pick a template, enter dates and one person per seat, then
    clone, tag and start one VM per seat. Responses of the back end are inputs, one per call. */
module TrainingsScreen {
  import opened Wrappers
  import opened Strings
  import PveScreen

  // ================================================================ the selected template

  /** Template id and base name taken from the ticked label. */
  datatype Selection = Selection(templateId: int, baseName: string)

  /** The base name (`pywebio_trainings.py:23`): the label up to its first ` (ID:`, with every
      `-Template` removed. */
  function BaseName(shown: string): string {
    Replace(Split(shown, " (ID:")[0], PveScreen.TemplateMarker, "")
  }

  /** `pywebio_trainings.py:22-23`: the id is parsed first, so a label whose id does not parse raises before
      the base name is computed. */
  function ParseSelection(shown: string): Option<Selection> {
    match PveScreen.ParseTemplateId(shown)
    case None => None
    case Some(id) => Some(Selection(id, BaseName(shown)))
  }

  /** The first `" (ID:"` of a label is the one after the name, when the name holds none. */
  lemma LabelFindName(name: string, rest: string)
    requires !Contains(name, " (ID:")
    ensures Find(name + " (ID:" + rest, " (ID:") == |name|
  {
    var l := name + " (ID:" + rest;
    var k := |name|;
    assert l[k..k + 5] == " (ID:";
    assert OccursAt(l, " (ID:", k);
    forall j | 0 <= j < k ensures !OccursAt(l, " (ID:", j) {
      if j + 5 <= k {
        assert l[j..j + 5] == name[j..j + 5];
        assert !OccursAt(name, " (ID:", j);
      } else {
        assert l[k] == ' ';
        assert " (ID:"[k - j] != ' ';
        assert j + 5 <= |l| ==> l[j..j + 5][k - j] == ' ';
      }
    }
  }

  /** The name part of a label is the template name. */
  lemma SplitLabelName(name: string, vmid: int)
    requires !Contains(name, " (ID:")
    ensures Split(PveScreen.TemplateLabel(PveScreen.Vm(Some(vmid), Some(name), None, None, None)), " (ID:")[0] == name
  {
    var d := IntToDecimal(vmid);
    var l := name + " (ID: " + d + ")";
    assert l == name + " (ID:" + (" " + d + ")");
    LabelFindName(name, " " + d + ")");
    assert l[..|name|] == name;
  }

  /** Selecting the label of a template yields its vmid and its name with every `"-Template"`
      removed, when the name holds neither `" (ID:"` nor, followed by a space, `"ID: "`. */
  lemma SelectionOfLabel(name: string, vmid: int)
    requires !Contains(name, " (ID:") && !Contains(name + " ", "ID: ")
    ensures ParseSelection(PveScreen.TemplateLabel(PveScreen.Vm(Some(vmid), Some(name), None, None, None))) ==
            Some(Selection(vmid, Replace(name, PveScreen.TemplateMarker, "")))
  {
    PveScreen.LabelRoundTrip(name, vmid);
    SplitLabelName(name, vmid);
  }

  // ================================================================ the seat list

  /** One `input_group` answer: the seat's person. */
  datatype Person = Person(firstName: string, lastName: string)

  datatype Seat = Seat(name: string, templateId: int, firstName: string, lastName: string)

  /** A seat's VM name (`pywebio_trainings.py:39`): first name, last name and base name, joined by
      dashes. */
  function SeatName(p: Person, baseName: string): string {
    p.firstName + "-" + p.lastName + "-" + baseName
  }

  /** A seat name ends in the template's base name and starts with the person's first name;
      when neither name holds a dash, its first two dash-separated pieces are the two names. */
  lemma SeatNameParts(p: Person, baseName: string)
    ensures var n := SeatName(p, baseName);
      && n[..|p.firstName|] == p.firstName
      && n[|n| - |baseName|..] == baseName
    ensures !Contains(p.firstName, "-") && !Contains(p.lastName, "-") ==>
      var pieces := Split(SeatName(p, baseName), "-");
      |pieces| >= 3 && pieces[0] == p.firstName && pieces[1] == p.lastName
  {
    var n := SeatName(p, baseName);
    if !Contains(p.firstName, "-") && !Contains(p.lastName, "-") {
      SplitAfterFree(p.firstName, p.lastName + "-" + baseName);
      assert n == p.firstName + "-" + (p.lastName + "-" + baseName);
      SplitAfterFree(p.lastName, baseName);
    }
  }

  /** Splitting `a + "-" + b` at dashes, with no dash in `a`, gives `a` and then the pieces of `b`. */
  lemma SplitAfterFree(a: string, b: string)
    requires !Contains(a, "-")
    ensures Split(a + "-" + b, "-") == [a] + Split(b, "-")
  {
    var s := a + "-" + b;
    assert OccursAt(s, "-", |a|) by { assert s[|a|..|a| + 1] == "-"; }
    forall j | 0 <= j < |a| ensures !OccursAt(s, "-", j) {
      assert s[j..j + 1] == a[j..j + 1];
      assert !OccursAt(a, "-", j);
    }
    assert Find(s, "-") == |a|;
    assert s[..|a|] == a && s[|a| + 1..] == b;
  }

  /** The `for i in range(num_seats)` loop; `people[i]` is the answer for seat `i + 1`. */
  method BuildSeats(numSeats: int, people: seq<Person>, sel: Selection) returns (seats: seq<Seat>)
    requires numSeats <= |people|
    ensures |seats| == if numSeats < 0 then 0 else numSeats
    ensures forall i :: 0 <= i < |seats| ==>
      seats[i] == Seat(SeatName(people[i], sel.baseName), sel.templateId, people[i].firstName, people[i].lastName)
  {
    seats := [];
    var i := 0;
    while i < numSeats
      invariant 0 <= i && (numSeats >= 0 ==> i <= numSeats) && (numSeats < 0 ==> i == 0)
      invariant |seats| == i
      invariant forall k :: 0 <= k < i ==>
        seats[k] == Seat(SeatName(people[k], sel.baseName), sel.templateId, people[k].firstName, people[k].lastName)
    {
      var p := people[i];
      seats := seats + [Seat(SeatName(p, sel.baseName), sel.templateId, p.firstName, p.lastName)];
      i := i + 1;
    }
  }

  // ================================================================ clone, tag, start

  datatype SeatRequest =
    | CreateLinkedClone(name: string, templateId: int)
    | AddTagsToVm(vmName: string, tags: seq<string>)
    | StartVm(startName: string)

  datatype Failure = CloneFailed(clone: string) | TagsFailed(tagged: string) | StartFailed(started: string)

  /** The two tags of every seat, `start-` then `end-` with the entered dates. */
  function Tags(startDate: string, endDate: string): (r: seq<string>)
    ensures |r| == 2
    ensures |r[0]| == 6 + |startDate| && |r[1]| == 4 + |endDate|
    ensures r[0][..6] == "start-" && r[0][6..] == startDate
    ensures r[1][..4] == "end-" && r[1][4..] == endDate
  {
    ["start-" + startDate, "end-" + endDate]
  }

  /** What one seat sends: the clone, and only when it succeeds the tagging and the start. */
  function SeatPlan(seat: Seat, cloned: bool, tags: seq<string>): seq<SeatRequest> {
    [CreateLinkedClone(seat.name, seat.templateId)] +
    if cloned then [AddTagsToVm(seat.name, tags), StartVm(seat.name)] else []
  }

  /** The requests of the whole seat loop, in order. */
  function Plan(seats: seq<Seat>, cloneOk: seq<bool>, tags: seq<string>): seq<SeatRequest>
    requires |cloneOk| == |seats|
  {
    if seats == [] then []
    else Plan(seats[..|seats| - 1], cloneOk[..|seats| - 1], tags) + SeatPlan(seats[|seats| - 1], cloneOk[|seats| - 1], tags)
  }

  /** The errors one seat reports: the failed clone alone, or the failed tagging and start. */
  function SeatFailures(seat: Seat, cloned: bool, tagged: bool, started: bool): seq<Failure> {
    if !cloned then [CloneFailed(seat.name)]
    else (if tagged then [] else [TagsFailed(seat.name)]) + (if started then [] else [StartFailed(seat.name)])
  }

  /** The errors the loop reports, in order. */
  function Failures(seats: seq<Seat>, cloneOk: seq<bool>, tagOk: seq<bool>, startOk: seq<bool>): seq<Failure>
    requires |cloneOk| == |seats| && |tagOk| == |seats| && |startOk| == |seats|
  {
    if seats == [] then []
    else
      var n := |seats| - 1;
      Failures(seats[..n], cloneOk[..n], tagOk[..n], startOk[..n]) +
      SeatFailures(seats[n], cloneOk[n], tagOk[n], startOk[n])
  }

  /** The steps the counter moves through: three for a cloned seat, one for a failed clone. */
  function Steps(cloneOk: seq<bool>): nat {
    if cloneOk == [] then 0
    else Steps(cloneOk[..|cloneOk| - 1]) + if cloneOk[|cloneOk| - 1] then 3 else 1
  }

  /** The counter never passes `total_steps`, and reaches it exactly when every clone succeeds. */
  lemma {:induction false} StepsBounds(cloneOk: seq<bool>)
    ensures |cloneOk| <= Steps(cloneOk) <= 3 * |cloneOk|
    ensures Steps(cloneOk) == 3 * |cloneOk| <==> forall i :: 0 <= i < |cloneOk| ==> cloneOk[i]
  {
    if cloneOk != [] {
      var n := |cloneOk| - 1;
      StepsBounds(cloneOk[..n]);
      if Steps(cloneOk) == 3 * |cloneOk| {
        forall i | 0 <= i < |cloneOk| ensures cloneOk[i] {
          if i < n {
            assert cloneOk[..n][i] == cloneOk[i];
          }
        }
      }
    }
  }

  /** One request is sent per step shown. */
  lemma {:induction false} PlanLength(seats: seq<Seat>, cloneOk: seq<bool>, tags: seq<string>)
    requires |cloneOk| == |seats|
    ensures |Plan(seats, cloneOk, tags)| == Steps(cloneOk)
  {
    if seats != [] {
      PlanLength(seats[..|seats| - 1], cloneOk[..|seats| - 1], tags);
    }
  }

  /** Every tagging request carries exactly the two seat tags and is followed by the start of
      the same VM, whatever the tagging answered; a plan never ends with a tagging. */
  lemma {:induction false} PlanTagsThenStart(seats: seq<Seat>, cloneOk: seq<bool>, tags: seq<string>)
    requires |cloneOk| == |seats|
    ensures var p := Plan(seats, cloneOk, tags);
      forall k :: 0 <= k < |p| && p[k].AddTagsToVm? ==>
        p[k].tags == tags && k + 1 < |p| && p[k + 1] == StartVm(p[k].vmName)
    ensures var p := Plan(seats, cloneOk, tags);
      p == [] || !p[|p| - 1].AddTagsToVm?
  {
    if seats != [] {
      var n := |seats| - 1;
      PlanTagsThenStart(seats[..n], cloneOk[..n], tags);
      var front := Plan(seats[..n], cloneOk[..n], tags);
      var last := SeatPlan(seats[n], cloneOk[n], tags);
      var p := front + last;
      forall k | 0 <= k < |p| && p[k].AddTagsToVm?
        ensures p[k].tags == tags && k + 1 < |p| && p[k + 1] == StartVm(p[k].vmName)
      {
        if k < |front| {
          assert p[k] == front[k];
        } else {
          assert p[k] == last[k - |front|];
        }
      }
    }
  }

  /** A seat whose clone succeeds always gets its start request. */
  lemma SeatStarted(seat: Seat, tags: seq<string>)
    ensures SeatPlan(seat, true, tags) ==
      [CreateLinkedClone(seat.name, seat.templateId), AddTagsToVm(seat.name, tags), StartVm(seat.name)]
    ensures SeatPlan(seat, false, tags) == [CreateLinkedClone(seat.name, seat.templateId)]
  {
  }

  /** One pass of the seat loop, from the counter value `step`: the steps shown, the requests
      sent and the errors reported for this seat. A failed clone ends the pass (`continue`). */
  method RunSeat(seat: Seat, tags: seq<string>, cloned: bool, tagged: bool, started: bool, step: int)
    returns (reqs: seq<SeatRequest>, shown: seq<int>, failures: seq<Failure>, next: int)
    ensures reqs == SeatPlan(seat, cloned, tags)
    ensures failures == SeatFailures(seat, cloned, tagged, started)
    ensures |shown| == |reqs| && next == step + |reqs|
    ensures forall k :: 0 <= k < |shown| ==> shown[k] == step + k + 1
  {
    next := step + 1;
    shown := [next];
    reqs := [CreateLinkedClone(seat.name, seat.templateId)];
    if !cloned {
      failures := [CloneFailed(seat.name)];
      return;
    }
    next := next + 1;
    shown := shown + [next];
    reqs := reqs + [AddTagsToVm(seat.name, tags)];
    failures := [];
    if !tagged {
      failures := [TagsFailed(seat.name)];
    }
    next := next + 1;
    shown := shown + [next];
    reqs := reqs + [StartVm(seat.name)];
    if !started {
      failures := failures + [StartFailed(seat.name)];
    }
  }

  /** The seat loop of `pywebio_trainings.py:47-86`. `cloneOk[i]`, `tagOk[i]`, `startOk[i]` are the answers to
      seat `i`'s three calls; `shown[k]` is the `current_step` shown before request `k`. */
  method RunSeats(seats: seq<Seat>, startDate: string, endDate: string,
                  cloneOk: seq<bool>, tagOk: seq<bool>, startOk: seq<bool>)
    returns (reqs: seq<SeatRequest>, shown: seq<int>, failures: seq<Failure>, totalSteps: int)
    requires |cloneOk| == |seats| && |tagOk| == |seats| && |startOk| == |seats|
    ensures totalSteps == 3 * |seats|
    ensures reqs == Plan(seats, cloneOk, Tags(startDate, endDate))
    ensures failures == Failures(seats, cloneOk, tagOk, startOk)
    ensures |shown| == |reqs| == Steps(cloneOk)
    ensures forall k :: 0 <= k < |shown| ==> shown[k] == k + 1 && shown[k] <= totalSteps
  {
    totalSteps := |seats| * 3;
    var currentStep := 0;
    reqs, shown, failures := [], [], [];
    var tags := Tags(startDate, endDate);
    for i := 0 to |seats|
      invariant currentStep == |reqs| == |shown| == Steps(cloneOk[..i])
      invariant reqs == Plan(seats[..i], cloneOk[..i], tags)
      invariant failures == Failures(seats[..i], cloneOk[..i], tagOk[..i], startOk[..i])
      invariant forall k :: 0 <= k < |shown| ==> shown[k] == k + 1
    {
      assert seats[..i + 1][..i] == seats[..i] && cloneOk[..i + 1][..i] == cloneOk[..i];
      assert tagOk[..i + 1][..i] == tagOk[..i] && startOk[..i + 1][..i] == startOk[..i];
      var r, sh, f, next := RunSeat(seats[i], tags, cloneOk[i], tagOk[i], startOk[i], currentStep);
      reqs, shown, failures, currentStep := reqs + r, shown + sh, failures + f, next;
    }
    assert seats[..|seats|] == seats && cloneOk[..|seats|] == cloneOk;
    assert tagOk[..|seats|] == tagOk && startOk[..|seats|] == startOk;
    StepsBounds(cloneOk);
  }
}
