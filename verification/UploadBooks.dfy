/**
 The books of a batch of uploads: what is counted as done, skipped and failed, what can be tried again, and the queue of
 name clashes waiting for a decision.
 */
module UploadBooks {
  import opened Wrappers
  import opened Sequences
  import UploadClient

  datatype Upload = Upload(name: string, size: nat, segments: seq<string>)

  /** A finished upload whose name was taken, waiting for the user's decision. Its bytes wait too, unless a row held the name. */
  datatype Clash = Clash(location: nat, filename: string, folder: string)

  datatype Policy = KeepBoth | Replace | Skip

  /** The answer to the question asked before anything is sent. */
  datatype Choice = Decided(policy: Policy) | Cancel

  datatype Verdict = Settled | Gone | Fell

  /** What happens to one item: whether its folders can be made, how its upload ends, how a clash is resolved. */
  datatype Fate = Fate(folders: bool, outcome: UploadClient.Outcome, verdict: Verdict)

  /** The one thing each item comes to. */
  datatype Ending =
    | Skipped
    | NoFolder
    | Uploaded
    | Resolved
    | Unresolved
    | Asked(clash: Clash)
    | Unreadable
    | Retryable

  datatype Report = Report(
    done: int, skipped: nat, failed: nat, again: seq<Upload>, unreadable: nat, queued: seq<Clash>)

  /** What the batch is measured against: folded names of the files on screen, the fold, and the folder open now. */
  datatype Screen = Screen(here: set<string>, fold: string -> string, folder: string)

  predicate Clashing(item: Upload, on: Screen) {
    item.segments == [] && on.fold(item.name) in on.here
  }

  function ClashesOn(on: Screen): Upload -> bool {
    (item: Upload) => Clashing(item, on)
  }

  function ClashOf(item: Upload, location: nat, on: Screen): Clash {
    Clash(location, item.name, if item.segments == [] then on.folder else item.segments[|item.segments| - 1])
  }

  function EndingOf(item: Upload, skip: bool, decided: bool, fate: Fate, on: Screen): Ending {
    if skip then Skipped
    else if item.segments != [] && !fate.folders then NoFolder
    else match fate.outcome
      case Done => Uploaded
      case NameClash(location) =>
        if !decided then Asked(ClashOf(item, location, on))
        else if fate.verdict.Settled? then Resolved else Unresolved
      case Failed(why) => if why.FileUnreadable? then Unreadable else Retryable
      case Abandoned => Retryable
  }

  /** What each ending means: who is skipped, for whom no folder could be made, and how the others' uploads went. */
  lemma EndingIs(item: Upload, skip: bool, decided: bool, fate: Fate, on: Screen)
    ensures var e, sent := EndingOf(item, skip, decided, fate, on), !skip && (item.segments == [] || fate.folders);
            && (e.Skipped? <==> skip)
            && (e.NoFolder? <==> !skip && item.segments != [] && !fate.folders)
            && (e.Uploaded? <==> sent && fate.outcome.Done?)
            && (e.Resolved? <==> sent && fate.outcome.NameClash? && decided && fate.verdict == Settled)
            && (e.Unresolved? <==> sent && fate.outcome.NameClash? && decided && fate.verdict in {Gone, Fell})
            && (e.Unreadable? <==> sent && fate.outcome == UploadClient.Failed(UploadClient.FileUnreadable))
            && (e.Retryable? <==> sent && !e.Unreadable? && (fate.outcome.Failed? || fate.outcome.Abandoned?))
            && (e.Asked? <==> sent && fate.outcome.NameClash? && !decided)
            && (e.Asked? ==>
                  && e.clash.location == fate.outcome.location && e.clash.filename == item.name
                  && (item.segments == [] ==> e.clash.folder == on.folder)
                  && (item.segments != [] ==> e.clash.folder == item.segments[|item.segments| - 1]))
  {
  }

  /** How each item ends, once the question before sending is answered (if it was asked). */
  function Endings(list: seq<Upload>, on: Screen, choice: Choice, fates: nat -> Fate): (r: seq<Ending>)
    ensures |r| == |list|
  {
    seq(|list|, i requires 0 <= i < |list| =>
      EndingOf(list[i], choice == Decided(Skip) && Clashing(list[i], on), Presettled(list, on, choice), fates(i), on))
  }

  /** A decision taken before sending stands for clashes met later. */
  predicate Presettled(list: seq<Upload>, on: Screen, choice: Choice) {
    (exists i :: 0 <= i < |list| && Clashing(list[i], on)) && choice.Decided? && !choice.policy.Skip?
  }

  /** Whom a decision taken before sending concerns: skipping the clashing files, any other one every clash met later. */
  lemma EndingsAre(list: seq<Upload>, on: Screen, choice: Choice, fates: nat -> Fate, i: nat)
    requires i < |list|
    ensures var skip := choice == Decided(Skip) && list[i].segments == [] && on.fold(list[i].name) in on.here;
            var decided := choice in {Decided(KeepBoth), Decided(Replace)}
                           && exists j :: 0 <= j < |list| && list[j].segments == [] && on.fold(list[j].name) in on.here;
            Endings(list, on, choice, fates)[i] == EndingOf(list[i], skip, decided, fates(i), on)
  {
    hide EndingOf;
    assert forall j :: 0 <= j < |list| ==>
      (Clashing(list[j], on) <==> list[j].segments == [] && on.fold(list[j].name) in on.here);
  }

  function Count(endings: seq<Ending>, kind: Ending -> bool): nat {
    if endings == [] then 0
    else Count(endings[..|endings| - 1], kind) + (if kind(endings[|endings| - 1]) then 1 else 0)
  }

  function ToTryAgain(list: seq<Upload>, endings: seq<Ending>): seq<Upload>
    requires |list| == |endings|
  {
    if list == [] then []
    else
      var last := |list| - 1;
      ToTryAgain(list[..last], endings[..last]) + (if endings[last].Retryable? then [list[last]] else [])
  }

  function ToAsk(endings: seq<Ending>): seq<Clash> {
    if endings == [] then []
    else
      var last := |endings| - 1;
      ToAsk(endings[..last]) + (if endings[last].Asked? then [endings[last].clash] else [])
  }

  predicate IsSkipped(e: Ending) { e.Skipped? }

  predicate IsNoFolder(e: Ending) { e.NoFolder? }

  predicate IsUnresolved(e: Ending) { e.Unresolved? }

  predicate IsUnreadable(e: Ending) { e.Unreadable? }

  predicate IsRetryable(e: Ending) { e.Retryable? }

  predicate IsFailure(e: Ending) {
    e.NoFolder? || e.Unresolved? || e.Asked? || e.Unreadable? || e.Retryable?
  }

  predicate IsSuccess(e: Ending) {
    e.Uploaded? || e.Resolved?
  }

  /** Every counter and list of the report says what it claims to say of the items' endings. */
  ghost predicate Tells(r: Report, list: seq<Upload>, endings: seq<Ending>)
    requires |list| == |endings|
  {
    && r.done == Count(endings, IsSuccess)
    && r.skipped == Count(endings, IsSkipped)
    && r.failed == Count(endings, IsFailure)
    && r.unreadable == Count(endings, IsUnreadable)
    && r.again == ToTryAgain(list, endings)
    && r.queued == ToAsk(endings)
  }

  /** The lists of the report follow the batch: those of one part, then those of the next. */
  lemma {:induction false} ListsFollowBatch(list: seq<Upload>, more: seq<Upload>, endings: seq<Ending>, rest: seq<Ending>)
    requires |list| == |endings| && |more| == |rest|
    ensures ToTryAgain(list + more, endings + rest) == ToTryAgain(list, endings) + ToTryAgain(more, rest)
    ensures ToAsk(endings + rest) == ToAsk(endings) + ToAsk(rest)
    decreases |more|
  {
    if more == [] {
      assert list + more == list && endings + rest == endings;
    } else {
      var last := |more| - 1;
      var all, ends := list + more, endings + rest;
      ListsFollowBatch(list, more[..last], endings, rest[..last]);
      assert all[..|all| - 1] == list + more[..last] && ends[..|ends| - 1] == endings + rest[..last];
      assert all[|all| - 1] == more[last] && ends[|ends| - 1] == rest[last];
    }
  }

  lemma OneItemsLists(item: Upload, ending: Ending)
    ensures ToTryAgain([item], [ending]) == if ending.Retryable? then [item] else []
    ensures ToAsk([ending]) == if ending.Asked? then [ending.clash] else []
  {
    assert [item][..0] == [] && [ending][..0] == [];
  }

  /** One more item keeps the books, whichever way it ends. */
  lemma OneMore(list: seq<Upload>, endings: seq<Ending>, k: nat)
    requires |list| == |endings| && k < |list|
    ensures forall kind: Ending -> bool {:trigger Count(endings[..k + 1], kind)} ::
              Count(endings[..k + 1], kind) == Count(endings[..k], kind) + if kind(endings[k]) then 1 else 0
    ensures ToTryAgain(list[..k + 1], endings[..k + 1])
            == ToTryAgain(list[..k], endings[..k]) + if endings[k].Retryable? then [list[k]] else []
    ensures ToAsk(endings[..k + 1]) == ToAsk(endings[..k]) + if endings[k].Asked? then [endings[k].clash] else []
  {
    assert endings[..k + 1][..k] == endings[..k] && list[..k + 1][..k] == list[..k];
  }

  lemma {:induction false} EveryItemIsCounted(endings: seq<Ending>)
    ensures Count(endings, IsSuccess) + Count(endings, IsSkipped) + Count(endings, IsFailure) == |endings|
    ensures Count(endings, IsFailure) ==
            Count(endings, IsNoFolder) + Count(endings, IsUnresolved) + |ToAsk(endings)|
            + Count(endings, IsUnreadable) + Count(endings, IsRetryable)
  {
    if endings != [] {
      EveryItemIsCounted(endings[..|endings| - 1]);
    }
  }

  lemma {:induction false} AgainIsCounted(list: seq<Upload>, endings: seq<Ending>)
    requires |list| == |endings|
    ensures |ToTryAgain(list, endings)| == Count(endings, IsRetryable)
  {
    if list != [] {
      AgainIsCounted(list[..|list| - 1], endings[..|list| - 1]);
    }
  }

  lemma SomeClash(list: seq<Upload>, on: Screen)
    ensures Filter(list, ClashesOn(on)) != [] <==> exists i :: 0 <= i < |list| && Clashing(list[i], on)
  {
    var clashing := Filter(list, ClashesOn(on));
    if clashing != [] {
      assert clashing[0] in clashing;
      var i :| 0 <= i < |list| && list[i] == clashing[0];
      assert Clashing(list[i], on);
    }
    if i :| 0 <= i < |list| && Clashing(list[i], on) {
      assert list[i] in clashing;
    }
  }

  /**
   `runUploads`, without its messages. None is the user's cancelling. The counters are kept as the program keeps them:
   `done` is not counted but is what is left over.
   */
  method RunUploads(list: seq<Upload>, on: Screen, choice: Choice, fates: nat -> Fate) returns (report: Option<Report>)
    requires forall i :: 0 <= i < |list| ==> !fates(i).outcome.Abandoned?
    ensures report.None? <==> list == [] || (choice.Cancel? && exists i :: 0 <= i < |list| && Clashing(list[i], on))
    ensures report.Some? ==> Tells(report.value, list, Endings(list, on, choice, fates))
    ensures report.Some? ==>
              report.value.skipped == if choice == Decided(Skip) then |Filter(list, ClashesOn(on))| else 0
  {
    if list == [] {
      return None;
    }
    var clashing := Filter(list, ClashesOn(on));
    var decided, skipping: set<string> := false, {};
    SomeClash(list, on);
    if clashing != [] {
      if choice.Cancel? {
        return None;
      }
      if choice.policy.Skip? {
        skipping := set item | item in clashing :: on.fold(item.name);
      } else {
        decided := true;
      }
    }
    ghost var endings := Endings(list, on, choice, fates);
    var r := SendAll(list, on, choice, decided, skipping, fates, endings);
    SkippedAreTheClashing(list, on, choice, fates, |list|);
    assert endings[..|list|] == endings && list[..|list|] == list;
    report := Some(r);
  }

  lemma NothingCounted(list: seq<Upload>, endings: seq<Ending>)
    requires |list| == |endings|
    ensures forall kind: Ending -> bool {:trigger Count(endings[..0], kind)} :: Count(endings[..0], kind) == 0
    ensures ToTryAgain(list[..0], endings[..0]) == [] && ToAsk(endings[..0]) == []
  {
  }

  /** The loop over the batch. */
  method SendAll(
    list: seq<Upload>, on: Screen, choice: Choice, decided: bool, skipping: set<string>, fates: nat -> Fate,
    ghost endings: seq<Ending>)
    returns (r: Report)
    requires endings == Endings(list, on, choice, fates)
    requires forall i :: 0 <= i < |list| ==> !fates(i).outcome.Abandoned?
    requires decided == Presettled(list, on, choice)
    requires forall i :: 0 <= i < |list| ==>
               (list[i].segments == [] && on.fold(list[i].name) in skipping
                <==> choice == Decided(Skip) && Clashing(list[i], on))
    ensures Tells(r, list, endings)
  {
    hide Count, ToTryAgain, ToAsk, Clashing, Presettled;
    var skipped, failed, unreadable, again, queued := 0, 0, 0, [], [];
    NothingCounted(list, endings);
    for k := 0 to |list|
      invariant skipped == Count(endings[..k], IsSkipped)
      invariant failed == Count(endings[..k], IsFailure)
      invariant unreadable == Count(endings[..k], IsUnreadable)
      invariant again == ToTryAgain(list[..k], endings[..k])
      invariant queued == ToAsk(endings[..k])
    {
      var item, fate := list[k], fates(k);
      OneMore(list, endings, k);
      if item.segments == [] && on.fold(item.name) in skipping {
        skipped := skipped + 1;
        continue;
      }
      if item.segments != [] && !fate.folders {
        failed := failed + 1;
        continue;
      }
      match fate.outcome
      case Done =>
      case NameClash(location) =>
        if decided {
          if !fate.verdict.Settled? {
            failed := failed + 1;
          }
        } else {
          failed := failed + 1;
          queued := queued + [ClashOf(item, location, on)];
        }
      case Failed(why) =>
        failed := failed + 1;
        if why.FileUnreadable? {
          unreadable := unreadable + 1;
        } else {
          again := again + [item];
        }
    }
    assert list[..|list|] == list && endings[..|list|] == endings;
    EveryItemIsCounted(endings);
    r := Report(|list| - failed - skipped, skipped, failed, again, unreadable, queued);
  }

  /**
   No upload is lost from the books: what is reported done returned normally or had its clash resolved, and done,
   skipped and failed make up the batch; the failures are those without a folder, those whose clash could not be
   resolved, the clashes queued, the files no longer readable and those offered for another try.
   */
  lemma BooksBalance(r: Report, list: seq<Upload>, endings: seq<Ending>)
    requires |list| == |endings| && Tells(r, list, endings)
    ensures r.done + r.skipped + r.failed == |list|
    ensures r.failed == Count(endings, IsNoFolder) + Count(endings, IsUnresolved)
                        + |r.queued| + r.unreadable + |r.again|
  {
    EveryItemIsCounted(endings);
    AgainIsCounted(list, endings);
  }

  lemma OneItem(item: Upload, on: Screen)
    ensures Filter([item], ClashesOn(on)) == if Clashing(item, on) then [item] else []
  {
    assert [item][1..] == [];
  }

  lemma SkippedAt(list: seq<Upload>, on: Screen, choice: Choice, fates: nat -> Fate, i: nat)
    requires i < |list|
    ensures Endings(list, on, choice, fates)[i].Skipped? <==> choice == Decided(Skip) && Clashing(list[i], on)
  {
    hide Clashing, Presettled;
    assert Endings(list, on, choice, fates)[i] ==
           EndingOf(list[i], choice == Decided(Skip) && Clashing(list[i], on), Presettled(list, on, choice), fates(i), on);
  }

  /** The files skipped are exactly those that clashed on screen, if that was the decision; otherwise none. */
  lemma {:induction false} SkippedAreTheClashing(list: seq<Upload>, on: Screen, choice: Choice, fates: nat -> Fate, k: nat)
    requires k <= |list|
    ensures Count(Endings(list, on, choice, fates)[..k], IsSkipped)
            == if choice == Decided(Skip) then |Filter(list[..k], ClashesOn(on))| else 0
  {
    hide Count, Filter, EndingOf, Clashing, Endings, ToAsk, ToTryAgain;
    var endings := Endings(list, on, choice, fates);
    if k == 0 {
      NothingCounted(list, endings);
      assert list[..0] == [] && |Filter(list[..0], ClashesOn(on))| <= 0;
    } else {
      SkippedAreTheClashing(list, on, choice, fates, k - 1);
      SkippedAt(list, on, choice, fates, k - 1);
      OneMore(list, endings, k - 1);
      assert list[..k] == list[..k - 1] + [list[k - 1]];
      FilterConcat(list[..k - 1], [list[k - 1]], ClashesOn(on));
      OneItem(list[k - 1], on);
    }
  }

  // ---- the queue of clashes --------------------------------------------------------------------

  /** How a queued clash left the queue for good. */
  datatype Closed = Closed(clash: Clash, how: How)

  datatype How = Answered(policy: Policy, verdict: Verdict) | Dismissed

  /** A running `resolveClash`: the clashes it took and has not sent yet. */
  datatype Resolving = Resolving(policy: Policy, left: seq<Clash>)

  /** `arrived` and `closed` are history variables. */
  datatype Desk = Desk(
    clashes: seq<Clash>, all: bool, running: seq<Resolving>, arrived: seq<Clash>, closed: seq<Closed>)

  datatype Event =
    | Arrive(clash: Clash)
    | Tick(all: bool)
    | Decide(policy: Policy)
    | Answer(index: nat, verdict: Verdict)
    | Dismiss

  function CloseAll(clashes: seq<Clash>): seq<Closed> {
    seq(|clashes|, i requires 0 <= i < |clashes| => Closed(clashes[i], Dismissed))
  }

  function Step(d: Desk, e: Event): Desk {
    match e
    case Arrive(c) => d.(clashes := d.clashes + [c], arrived := d.arrived + [c])
    case Tick(all) => d.(all := all)
    case Decide(policy) =>
      var n := if d.all then |d.clashes| else if d.clashes == [] then 0 else 1;
      if n == 0 then d
      else d.(clashes := d.clashes[n..], all := false, running := d.running + [Resolving(policy, d.clashes[..n])])
    case Answer(i, verdict) =>
      if i >= |d.running| || d.running[i].left == [] then d
      else
        var r := d.running[i];
        d.(running := d.running[i := r.(left := r.left[1..])],
           closed := d.closed + [Closed(r.left[0], Answered(r.policy, verdict))])
    case Dismiss => d.(clashes := [], all := false, closed := d.closed + CloseAll(d.clashes))
  }

  /** A decision takes the first clash, or all of them when it is for all; the rest keep their order. */
  lemma DecideTakes(d: Desk, policy: Policy)
    ensures d.clashes == [] ==> Step(d, Decide(policy)) == d
    ensures d.clashes != [] ==>
              var q := Step(d, Decide(policy));
              && !q.all && q.arrived == d.arrived && q.closed == d.closed
              && |q.running| == |d.running| + 1 && q.running[..|d.running|] == d.running
              && q.running[|d.running|].policy == policy
              && (d.all ==> q.clashes == [] && q.running[|d.running|].left == d.clashes)
              && (!d.all ==> q.running[|d.running|].left == [d.clashes[0]] && q.running[|d.running|].left + q.clashes == d.clashes)
  {
  }

  /** An answer closes the first clash still being sent, with that decision and verdict; a dismissal closes all that wait. */
  lemma AnswerCloses(d: Desk, i: nat, verdict: Verdict)
    ensures i < |d.running| && d.running[i].left != [] ==>
              var q := Step(d, Answer(i, verdict));
              && q.closed == d.closed + [Closed(d.running[i].left[0], Answered(d.running[i].policy, verdict))]
              && q.clashes == d.clashes && q.all == d.all && |q.running| == |d.running|
              && q.running[i] == Resolving(d.running[i].policy, d.running[i].left[1..])
              && forall j :: 0 <= j < |d.running| && j != i ==> q.running[j] == d.running[j]
    ensures var q := Step(d, Dismiss);
            && q.clashes == [] && !q.all && q.running == d.running && |q.closed| == |d.closed| + |d.clashes|
            && (forall j :: 0 <= j < |d.closed| ==> q.closed[j] == d.closed[j])
            && forall j :: 0 <= j < |d.clashes| ==> q.closed[|d.closed| + j] == Closed(d.clashes[j], Dismissed)
  {
  }

  function Play(d: Desk, events: seq<Event>): Desk
    decreases |events|
  {
    if events == [] then d else Play(Step(d, events[0]), events[1..])
  }

  ghost function Sending(running: seq<Resolving>): multiset<Clash> {
    if running == [] then multiset{} else Sending(running[..|running| - 1]) + multiset(running[|running| - 1].left)
  }

  ghost function ClashesClosed(closed: seq<Closed>): multiset<Clash> {
    multiset(seq(|closed|, i requires 0 <= i < |closed| => closed[i].clash))
  }

  /** Every clash that ever arrived is in exactly one place: waiting, being sent, or closed. */
  ghost predicate Conserved(d: Desk) {
    multiset(d.arrived) == multiset(d.clashes) + Sending(d.running) + ClashesClosed(d.closed)
  }

  lemma {:induction false} SendingLess(running: seq<Resolving>, i: nat, less: Resolving)
    requires i < |running| && running[i].left != [] && less.left == running[i].left[1..]
    ensures Sending(running) == Sending(running[i := less]) + multiset{running[i].left[0]}
  {
    var last := |running| - 1;
    var after := running[i := less];
    if i == last {
      assert after[..last] == running[..last];
      assert running[i].left == [running[i].left[0]] + less.left;
    } else {
      SendingLess(running[..last], i, less);
      assert after[..last] == running[..last][i := less];
    }
  }

  lemma SendingMore(running: seq<Resolving>, r: Resolving)
    ensures Sending(running + [r]) == Sending(running) + multiset(r.left)
  {
    assert (running + [r])[..|running|] == running;
  }

  lemma ClosedConcat(a: seq<Closed>, b: seq<Closed>)
    ensures ClashesClosed(a + b) == ClashesClosed(a) + ClashesClosed(b)
  {
    var all := a + b;
    var x, y := seq(|a|, i requires 0 <= i < |a| => a[i].clash), seq(|b|, i requires 0 <= i < |b| => b[i].clash);
    assert seq(|all|, i requires 0 <= i < |all| => all[i].clash) == x + y;
  }

  lemma AllAreClosed(clashes: seq<Clash>)
    ensures ClashesClosed(CloseAll(clashes)) == multiset(clashes)
  {
    var closed := CloseAll(clashes);
    assert seq(|closed|, i requires 0 <= i < |closed| => closed[i].clash) == clashes;
  }

  lemma OneIsClosed(c: Clash, how: How)
    ensures ClashesClosed([Closed(c, how)]) == multiset{c}
  {
    assert seq(1, i requires 0 <= i < 1 => [Closed(c, how)][i].clash) == [c];
  }

  lemma StepConserves(d: Desk, e: Event)
    requires Conserved(d)
    ensures Conserved(Step(d, e))
  {
    hide Sending, ClashesClosed;
    match e
    case Arrive(c) =>
    case Tick(_) =>
    case Decide(policy) =>
      var n := if d.all then |d.clashes| else if d.clashes == [] then 0 else 1;
      SendingMore(d.running, Resolving(policy, d.clashes[..n]));
      assert d.clashes == d.clashes[..n] + d.clashes[n..];
    case Answer(i, verdict) =>
      if i < |d.running| && d.running[i].left != [] {
        var r := d.running[i];
        SendingLess(d.running, i, r.(left := r.left[1..]));
        ClosedConcat(d.closed, [Closed(r.left[0], Answered(r.policy, verdict))]);
        OneIsClosed(r.left[0], Answered(r.policy, verdict));
      }
    case Dismiss =>
      AllAreClosed(d.clashes);
      ClosedConcat(d.closed, CloseAll(d.clashes));
  }

  /** Over every interleaving of clashes arriving, decisions, answers and dismissals, and every mix of outcomes. */
  lemma {:induction false} PlayConserves(d: Desk, events: seq<Event>)
    requires Conserved(d)
    ensures Conserved(Play(d, events))
    decreases |events|
  {
    hide Conserved, Step;
    if events != [] {
      StepConserves(d, events[0]);
      PlayConserves(Step(d, events[0]), events[1..]);
    }
  }

  /** So a clash that arrived once is closed at most once, and once nothing waits and nothing is being sent, exactly once. */
  lemma EachClashOnce(events: seq<Event>, c: Clash)
    ensures var d := Play(Desk([], false, [], [], []), events);
            && ClashesClosed(d.closed)[c] <= multiset(d.arrived)[c]
            && (d.clashes == [] && (forall i :: 0 <= i < |d.running| ==> d.running[i].left == []) ==>
                  ClashesClosed(d.closed) == multiset(d.arrived))
  {
    hide Play;
    PlayConserves(Desk([], false, [], [], []), events);
    var d := Play(Desk([], false, [], [], []), events);
    if forall i :: 0 <= i < |d.running| ==> d.running[i].left == [] {
      NothingSending(d.running);
    }
  }

  lemma {:induction false} NothingSending(running: seq<Resolving>)
    requires forall i :: 0 <= i < |running| ==> running[i].left == []
    ensures Sending(running) == multiset{}
  {
    if running != [] {
      NothingSending(running[..|running| - 1]);
    }
  }

  // ---- the component ---------------------------------------------------------------------------

  datatype Tally = Tally(done: nat, gone: seq<string>, failed: seq<string>)

  /** The names of the clashes that came to this verdict, in order. */
  function Named(queue: seq<Clash>, verdicts: nat -> Verdict, verdict: Verdict, n: nat): seq<string>
    requires n <= |queue|
  {
    if n == 0 then []
    else Named(queue, verdicts, verdict, n - 1) + (if verdicts(n - 1) == verdict then [queue[n - 1].filename] else [])
  }

  /** A name is listed under a verdict exactly when its clash came to it. */
  lemma {:induction false} NamedIff(queue: seq<Clash>, verdicts: nat -> Verdict, verdict: Verdict, n: nat, name: string)
    requires n <= |queue|
    ensures name in Named(queue, verdicts, verdict, n)
            <==> exists i: nat :: i < n && verdicts(i) == verdict && queue[i].filename == name
  {
    if n > 0 {
      NamedIff(queue, verdicts, verdict, n - 1, name);
    }
  }

  class ClashQueue {
    var clashes: seq<Clash>
    var all: bool

    constructor ()
      ensures clashes == [] && !all
    {
      clashes, all := [], false;
    }

    /** `resolveClash`: what it takes leaves the queue at once; each clash taken is counted once, by its verdict. */
    method ResolveClash(policy: Policy, verdicts: nat -> Verdict, ghost before: Desk) returns (taken: seq<Clash>, tally: Tally)
      requires before.clashes == clashes && before.all == all
      modifies this
      ensures taken + clashes == old(clashes)
      ensures old(clashes) != [] ==> taken == if old(all) then old(clashes) else [old(clashes)[0]]
      ensures clashes == Step(before, Decide(policy)).clashes && all == Step(before, Decide(policy)).all
      ensures taken != [] ==> Step(before, Decide(policy)).running == before.running + [Resolving(policy, taken)]
      ensures tally.done + |tally.gone| + |tally.failed| == |taken|
      ensures tally.done == |Named(taken, verdicts, Settled, |taken|)|
      ensures tally.gone == Named(taken, verdicts, Gone, |taken|)
      ensures tally.failed == Named(taken, verdicts, Fell, |taken|)
    {
      taken := if all then clashes else if clashes == [] then [] else clashes[..1];
      tally := Tally(0, [], []);
      if taken == [] {
        return;
      }
      clashes := clashes[|taken|..];
      all := false;
      for k := 0 to |taken|
        invariant tally.done + |tally.gone| + |tally.failed| == k
        invariant tally.done == |Named(taken, verdicts, Settled, k)|
        invariant tally.gone == Named(taken, verdicts, Gone, k)
        invariant tally.failed == Named(taken, verdicts, Fell, k)
      {
        match verdicts(k)
        case Gone => tally := tally.(gone := tally.gone + [taken[k].filename]);
        case Fell => tally := tally.(failed := tally.failed + [taken[k].filename]);
        case Settled => tally := tally.(done := tally.done + 1);
      }
    }
  }
}
