/**
 * The batch sequencer of the main window (MainViewModel): which items a batch downloads, the
 * equal weights and the aggregate percentage, what each item's outcome does to its row and to
 * the batch, the final status lines, and the commands that remove rows. Each item's download is
 * an oracle: the events it delivers in order (reports, and presses of the cancel button) and
 * the way it ends.
 */
module Batch {
  import opened Progress
  import opened Items
  import opened Download

  const StartButtonIdle := "START NEDLASTING"
  const StartButtonBusy := "AVBRYT"
  const CancelingText := "Avbryter..."
  const StoppingText := "Stopper..."
  const NothingSelectedText := "Ingen videoer valgt for nedlasting."
  const StartingText := "Starter nedlasting..."
  const AbortedText := "Nedlasting avbrutt av bruker."
  const AllDoneText := "Alle operasjoner fullført!"
  const BatchDoneText := "Ferdig! (Total: 100%)"
  const StoppedText := "Stoppet."

  /** The status line: a fixed text, or "[index/total] title: message" for an item's report. */
  datatype StatusLine = Note(text: string) | ItemLine(index: nat, total: nat, title: string, message: Message)

  /** The batch line: a fixed text, "Laster ned fil index av total (Total: p%)" while a file
      downloads, or "Ferdig med fil index av total (Total: p%)" after it. */
  datatype BatchLine = BatchNote(text: string) | Downloading(index: nat, total: nat, percent: real)
                     | FinishedFile(index: nat, total: nat, percent: real)

  /** What reaches the view model while one item downloads, in order. */
  datatype Event = Reported(report: Report) | CancelPressed

  /** One item's download: its events and how it ended. */
  datatype ItemRun = ItemRun(events: seq<Event>, end: DownloadEnd)

  /** The window's batch fields, and whether the cancellation token has fired. */
  datatype Screen = Screen(statusMessage: StatusLine, batchStatus: BatchLine, totalProgress: real, canceled: bool)

  /** An item's status and progress columns. */
  datatype ItemView = ItemView(status: Message, progress: real)

  function ButtonText(isDownloading: bool): string {
    if isDownloading then StartButtonBusy else StartButtonIdle
  }

  // ---------------------------------------------------------------------------------------
  // The specification of one batch

  /** Each of `total` items weighs an equal share of 100. */
  function Weight(total: nat): (w: real)
    requires total > 0
    ensures w > 0.0
  {
    100.0 / total as real
  }

  /** `k` weights added up, as the loop adds them one item at a time. */
  function Times(weight: real, k: nat): real {
    if k == 0 then 0.0 else Times(weight, k - 1) + weight
  }

  lemma {:induction false} TimesIsProduct(weight: real, k: nat)
    ensures Times(weight, k) == weight * k as real
  {
    if k > 0 {
      TimesIsProduct(weight, k - 1);
    }
  }

  /** The aggregate percentage for a report `p` of the current item on top of `base`. */
  function Aggregate(base: real, weight: real, p: real): real {
    base + p * (weight / 100.0)
  }

  /** The cancel button while a batch runs: the token fires, and both lines say so. */
  function OnCancel(sc: Screen): Screen {
    sc.(canceled := true, statusMessage := Note(CancelingText), batchStatus := BatchNote(StoppingText))
  }

  /** One event of item `index` of `total`. */
  function OnEvent(sc: Screen, it: ItemView, index: nat, total: nat, title: string, base: real, weight: real, e: Event): (Screen, ItemView) {
    match e
    case CancelPressed => (OnCancel(sc), it)
    case Reported(Status(m)) => (sc.(statusMessage := ItemLine(index, total, title, m)), it.(status := m))
    case Reported(Percent(p)) =>
      var b := Aggregate(base, weight, p);
      (sc.(totalProgress := b, batchStatus := Downloading(index, total, b)), it.(progress := p))
  }

  function OnEvents(sc: Screen, it: ItemView, index: nat, total: nat, title: string, base: real, weight: real, events: seq<Event>): (Screen, ItemView)
    decreases |events|
  {
    if events == [] then (sc, it)
    else
      var (s, i) := OnEvents(sc, it, index, total, title, base, weight, events[..|events| - 1]);
      OnEvent(s, i, index, total, title, base, weight, events[|events| - 1])
  }

  /** How an item's end changes its row and whether the batch stops. */
  function OnEnd(sc: Screen, it: ItemView, end: DownloadEnd): (Screen, ItemView, bool) {
    match end
    case Returned => (sc, it.(status := Plain(DoneText), progress := 100.0), false)
    case Canceled => (sc.(statusMessage := Note(AbortedText)), it.(status := Plain(CanceledText)), true)
    case Faulted(_) => (sc, it.(status := Plain(FailedText)), false)
  }

  /** One item from "Forbereder..." to its end; an item that does not stop the batch adds its
      weight to the base. */
  function ItemStep(sc: Screen, it: ItemView, index: nat, total: nat, title: string, base: real, weight: real, run: ItemRun): (Screen, ItemView, bool) {
    var (s1, i1) := OnEvents(sc, it.(status := Plain(PreparingText)), index, total, title, base, weight, run.events);
    var (s2, i2, stop) := OnEnd(s1, i1, run.end);
    if stop then (s2, i2, true)
    else (s2.(totalProgress := base + weight, batchStatus := FinishedFile(index, total, base + weight)), i2, false)
  }

  /** The loop from item `i` on: until the items run out, the token has fired at the top of the
      loop, or an item ends cancelled. The screen, the rows, and how many items started. */
  function BatchFrom(sc: Screen, views: seq<ItemView>, titles: seq<string>, runs: seq<ItemRun>, i: nat, base: real, weight: real): (r: (Screen, seq<ItemView>, nat))
    requires |views| == |runs| == |titles| && i <= |runs|
    ensures |r.1| == |runs| && i <= r.2 <= |runs|
    decreases |runs| - i
  {
    if i == |runs| || sc.canceled then (sc, views, i)
    else
      var (s, v, stop) := ItemStep(sc, views[i], i + 1, |runs|, titles[i], base, weight, runs[i]);
      if stop then (s, views[i := v], i + 1)
      else BatchFrom(s, views[i := v], titles, runs, i + 1, base + weight, weight)
  }

  /** The `finally` block: the lines depend only on whether the status line reads the
      cancellation text. */
  function Finish(sc: Screen): Screen {
    if sc.statusMessage != Note(AbortedText) then
      sc.(statusMessage := Note(AllDoneText), batchStatus := BatchNote(BatchDoneText), totalProgress := 100.0)
    else sc.(batchStatus := BatchNote(StoppedText))
  }

  // ---------------------------------------------------------------------------------------
  // Properties of the specification

  /** A report between 0 and 100 from item `index` of `total` puts the aggregate between the
      weight of the finished items and that of the finished items plus this one, so within
      [0, 100]. */
  lemma AggregateInRange(total: nat, index: nat, p: real)
    requires 1 <= index <= total
    requires 0.0 <= p <= 100.0
    ensures var w := Weight(total);
      var a := Aggregate(Times(w, index - 1), w, p);
      Times(w, index - 1) <= a <= Times(w, index) && 0.0 <= a <= 100.0
  {
    var w := Weight(total);
    var q := w / 100.0;
    TimesIsProduct(w, index - 1);
    TimesIsProduct(w, index);
    ScaleMonotone(0.0, p, q);
    ScaleMonotone(p, 100.0, q);
    assert 100.0 * q == w;
    ScaleMonotone(0.0, (index - 1) as real, w);
    ScaleMonotone(index as real, total as real, w);
    assert w * total as real == 100.0;
  }

  /** Multiplying by a non-negative number keeps the order. */
  lemma ScaleMonotone(x: real, y: real, z: real)
    requires x <= y && z >= 0.0
    ensures x * z <= y * z
  {
    assert (y - x) * z >= 0.0;
  }

  /** A batch of four where two items are done and the third reports 50% shows 62.5%. */
  lemma AggregateExample()
    ensures Aggregate(Weight(4) * 2.0, Weight(4), 50.0) == 62.5
  {
    assert Weight(4) == 25.0;
  }

  predicate EventsInRange(events: seq<Event>) {
    forall k :: 0 <= k < |events| && events[k].Reported? && events[k].report.Percent? ==>
      0.0 <= events[k].report.value <= 100.0
  }

  /** The aggregate stays within [0, 100] through every event of an item. */
  lemma {:induction false} OnEventsInRange(sc: Screen, it: ItemView, index: nat, total: nat, title: string, events: seq<Event>)
    requires 1 <= index <= total
    requires 0.0 <= sc.totalProgress <= 100.0
    requires EventsInRange(events)
    ensures var w := Weight(total);
      0.0 <= OnEvents(sc, it, index, total, title, Times(w, index - 1), w, events).0.totalProgress <= 100.0
    decreases |events|
  {
    if events != [] {
      var w := Weight(total);
      var init := events[..|events| - 1];
      assert EventsInRange(init) by {
        forall k | 0 <= k < |init| ensures init[k] == events[k] { }
      }
      OnEventsInRange(sc, it, index, total, title, init);
      var e := events[|events| - 1];
      if e.Reported? && e.report.Percent? {
        AggregateInRange(total, index, e.report.value);
      }
    }
  }

  /** An item's events never touch the token, except a press of the cancel button. */
  lemma {:induction false} OnEventsCancel(sc: Screen, it: ItemView, index: nat, total: nat, title: string, base: real, weight: real, events: seq<Event>)
    ensures OnEvents(sc, it, index, total, title, base, weight, events).0.canceled
      <==> sc.canceled || CancelPressed in events
    decreases |events|
  {
    if events != [] {
      var init := events[..|events| - 1];
      OnEventsCancel(sc, it, index, total, title, base, weight, init);
      assert events == init + [events[|events| - 1]];
    }
  }

  /** The status an item's row ends with. */
  function EndStatus(end: DownloadEnd): Message {
    match end
    case Returned => Plain(DoneText)
    case Canceled => Plain(CanceledText)
    case Faulted(_) => Plain(FailedText)
  }

  /** An item's row ends with the status of its outcome, and at 100 when it returned. */
  lemma {:induction false} ItemStepRow(sc: Screen, it: ItemView, index: nat, total: nat, title: string, base: real, weight: real, run: ItemRun)
    ensures var (s, v, stop) := ItemStep(sc, it, index, total, title, base, weight, run);
      v.status == EndStatus(run.end) && (run.end.Returned? ==> v.progress == 100.0)
      && (stop <==> run.end.Canceled?)
      && (!stop ==> s.totalProgress == base + weight && s.batchStatus == FinishedFile(index, total, base + weight))
      && (stop ==> s.statusMessage == Note(AbortedText))
      && (s.canceled <==> sc.canceled || CancelPressed in run.events)
  {
    OnEventsCancel(sc, it.(status := Plain(PreparingText)), index, total, title, base, weight, run.events);
  }

  /** An item stops the batch after it when the cancel button was pressed during it or it
      ended cancelled. */
  predicate Stops(run: ItemRun) {
    CancelPressed in run.events || run.end.Canceled?
  }

  /** The number of items a batch starts: up to and including the first that stops it. */
  function Started(runs: seq<ItemRun>, i: nat): (n: nat)
    requires i <= |runs|
    ensures i <= n <= |runs|
    decreases |runs| - i
  {
    if i == |runs| then i else if Stops(runs[i]) then i + 1 else Started(runs, i + 1)
  }

  /** The batch starts exactly the items up to the first that stops it, in order. */
  lemma {:induction false} BatchFromStarted(sc: Screen, views: seq<ItemView>, titles: seq<string>, runs: seq<ItemRun>, i: nat, base: real, weight: real)
    requires |views| == |runs| == |titles| && i <= |runs|
    requires !sc.canceled
    ensures BatchFrom(sc, views, titles, runs, i, base, weight).2 == Started(runs, i)
    decreases |runs| - i
  {
    if i < |runs| {
      var (s, v, stop) := ItemStep(sc, views[i], i + 1, |runs|, titles[i], base, weight, runs[i]);
      ItemStepRow(sc, views[i], i + 1, |runs|, titles[i], base, weight, runs[i]);
      if !stop && !s.canceled {
        BatchFromStarted(s, views[i := v], titles, runs, i + 1, base + weight, weight);
      }
    }
  }

  /** Each started item ends with its outcome's status, and at 100 when it returned; the rows
      before `i` and those not started keep their values. */
  lemma {:induction false} BatchFromRows(sc: Screen, views: seq<ItemView>, titles: seq<string>, runs: seq<ItemRun>, i: nat, base: real, weight: real)
    requires |views| == |runs| == |titles| && i <= |runs|
    ensures var (s, v, n) := BatchFrom(sc, views, titles, runs, i, base, weight);
      (forall k :: 0 <= k < i ==> v[k] == views[k])
      && (forall k :: n <= k < |runs| ==> v[k] == views[k])
      && (forall k :: i <= k < n ==>
            (v[k].status == EndStatus(runs[k].end) && (runs[k].end.Returned? ==> v[k].progress == 100.0)))
    decreases |runs| - i
  {
    if i < |runs| && !sc.canceled {
      var (s, v, stop) := ItemStep(sc, views[i], i + 1, |runs|, titles[i], base, weight, runs[i]);
      ItemStepRow(sc, views[i], i + 1, |runs|, titles[i], base, weight, runs[i]);
      if !stop {
        BatchFromRows(s, views[i := v], titles, runs, i + 1, base + weight, weight);
      }
    }
  }

  /** The base before item `k` is `k` weights: when the last item started did not end
      cancelled, the aggregate is the weight of all started items; when it did, the status line
      reads the cancellation text. */
  lemma {:induction false} BatchFromTotal(sc: Screen, views: seq<ItemView>, titles: seq<string>, runs: seq<ItemRun>, i: nat, weight: real)
    requires |views| == |runs| == |titles| && i <= |runs|
    ensures var (s, v, n) := BatchFrom(sc, views, titles, runs, i, Times(weight, i), weight);
      (n > i && !runs[n - 1].end.Canceled? ==> s.totalProgress == Times(weight, n))
      && (n > i && runs[n - 1].end.Canceled? ==> s.statusMessage == Note(AbortedText))
      && (n == i ==> s == sc)
    decreases |runs| - i
  {
    if i < |runs| && !sc.canceled {
      var base := Times(weight, i);
      var (s, v, stop) := ItemStep(sc, views[i], i + 1, |runs|, titles[i], base, weight, runs[i]);
      ItemStepRow(sc, views[i], i + 1, |runs|, titles[i], base, weight, runs[i]);
      if !stop {
        BatchFromTotal(s, views[i := v], titles, runs, i + 1, weight);
      }
    }
  }

  /** The loop's step: item `i` runs, then the batch stops or goes on from `i + 1`. */
  lemma BatchFromNext(sc: Screen, views: seq<ItemView>, titles: seq<string>, runs: seq<ItemRun>, i: nat, base: real, weight: real,
                      s: Screen, v: ItemView, stop: bool)
    requires |views| == |runs| == |titles| && i < |runs| && !sc.canceled
    requires (s, v, stop) == ItemStep(sc, views[i], i + 1, |runs|, titles[i], base, weight, runs[i])
    ensures stop ==> BatchFrom(sc, views, titles, runs, i, base, weight) == (s, views[i := v], i + 1)
    ensures !stop ==> BatchFrom(sc, views, titles, runs, i, base, weight)
                      == BatchFrom(s, views[i := v], titles, runs, i + 1, base + weight, weight)
  {
  }

  /** Without a cancellation the whole batch runs and the aggregate ends at exactly 100 before
      the `finally` block sets it; the batch line then reads "Ferdig! (Total: 100%)", whatever
      the outcomes. */
  lemma {:induction false} FullBatch(sc: Screen, views: seq<ItemView>, titles: seq<string>, runs: seq<ItemRun>)
    requires |views| == |runs| == |titles| && |runs| > 0
    requires !sc.canceled && sc.statusMessage != Note(AbortedText)
    requires forall k :: 0 <= k < |runs| ==> !Stops(runs[k])
    ensures var r := BatchFrom(sc, views, titles, runs, 0, 0.0, Weight(|runs|));
      r.2 == |runs| && r.0.totalProgress == 100.0
      && Finish(r.0).batchStatus == BatchNote(BatchDoneText) && Finish(r.0).totalProgress == 100.0
  {
    var w := Weight(|runs|);
    assert Times(w, 0) == 0.0;
    BatchFromStarted(sc, views, titles, runs, 0, 0.0, w);
    BatchFromTotal(sc, views, titles, runs, 0, w);
    LastStatusNotAborted(sc, views, titles, runs, 0, w);
    NoStopRunsAll(runs, 0);
    WeightsAddUp(|runs|);
  }

  /** The weights of all items add up to 100. */
  lemma WeightsAddUp(total: nat)
    requires total > 0
    ensures Times(Weight(total), total) == 100.0
  {
    TimesIsProduct(Weight(total), total);
  }

  lemma {:induction false} NoStopRunsAll(runs: seq<ItemRun>, i: nat)
    requires i <= |runs|
    requires forall k :: i <= k < |runs| ==> !Stops(runs[k])
    ensures Started(runs, i) == |runs|
    decreases |runs| - i
  {
    if i < |runs| {
      NoStopRunsAll(runs, i + 1);
    }
  }

  /** The batch line reads "Stoppet." exactly when the last item started ended cancelled. A
      cancellation seen only at the top of the loop (the download returned although the
      button was pressed) leaves the rest of the batch undone and still reads "Ferdig! (Total:
      100%)". */
  lemma {:induction false} FinalLine(sc: Screen, views: seq<ItemView>, titles: seq<string>, runs: seq<ItemRun>)
    requires |views| == |runs| == |titles| && |runs| > 0
    requires !sc.canceled && sc.statusMessage != Note(AbortedText)
    ensures var r := BatchFrom(sc, views, titles, runs, 0, 0.0, Weight(|runs|));
      r.2 >= 1
      && (Finish(r.0).batchStatus == BatchNote(StoppedText) <==> runs[r.2 - 1].end.Canceled?)
      && (!runs[r.2 - 1].end.Canceled? ==>
            Finish(r.0).batchStatus == BatchNote(BatchDoneText) && Finish(r.0).totalProgress == 100.0)
  {
    var w := Weight(|runs|);
    assert Times(w, 0) == 0.0;
    var r := BatchFrom(sc, views, titles, runs, 0, 0.0, w);
    BatchFromTotal(sc, views, titles, runs, 0, w);
    LastStatusNotAborted(sc, views, titles, runs, 0, w);
  }

  /** Only an item that ends cancelled writes the cancellation text: item reports write item
      lines and the cancel button writes its own text. */
  lemma {:induction false} LastStatusNotAborted(sc: Screen, views: seq<ItemView>, titles: seq<string>, runs: seq<ItemRun>, i: nat, weight: real)
    requires |views| == |runs| == |titles| && i <= |runs|
    requires sc.statusMessage != Note(AbortedText)
    ensures var (s, v, n) := BatchFrom(sc, views, titles, runs, i, Times(weight, i), weight);
      (n == i || !runs[n - 1].end.Canceled?) ==> s.statusMessage != Note(AbortedText)
    decreases |runs| - i
  {
    if i < |runs| && !sc.canceled {
      var base := Times(weight, i);
      var it := views[i].(status := Plain(PreparingText));
      OnEventsNotAborted(sc, it, i + 1, |runs|, titles[i], base, weight, runs[i].events);
      var (s, v, stop) := ItemStep(sc, views[i], i + 1, |runs|, titles[i], base, weight, runs[i]);
      if !stop {
        LastStatusNotAborted(s, views[i := v], titles, runs, i + 1, weight);
      }
    }
  }

  lemma {:induction false} OnEventsNotAborted(sc: Screen, it: ItemView, index: nat, total: nat, title: string, base: real, weight: real, events: seq<Event>)
    requires sc.statusMessage != Note(AbortedText)
    ensures OnEvents(sc, it, index, total, title, base, weight, events).0.statusMessage != Note(AbortedText)
    decreases |events|
  {
    if events != [] {
      OnEventsNotAborted(sc, it, index, total, title, base, weight, events[..|events| - 1]);
    }
  }

  /** The quirk spelled out: pressing cancel during the first of two items whose download then
      returns normally stops the batch after one item, yet the batch line ends "Ferdig! (Total:
      100%)" with the aggregate at 100. */
  lemma {:induction false} CancelAtLoopTopReadsDone(sc: Screen, views: seq<ItemView>, titles: seq<string>, first: ItemRun, second: ItemRun)
    requires |views| == |titles| == 2
    requires !sc.canceled && sc.statusMessage != Note(AbortedText)
    requires first == ItemRun([CancelPressed], Returned)
    ensures var r := BatchFrom(sc, views, titles, [first, second], 0, 0.0, Weight(2));
      r.2 == 1 && r.1[1] == views[1]
      && Finish(r.0).batchStatus == BatchNote(BatchDoneText) && Finish(r.0).totalProgress == 100.0
  {
    var runs := [first, second];
    assert CancelPressed in first.events;
    assert Started(runs, 0) == 1;
    FinalLine(sc, views, titles, runs);
    var w := Weight(2);
    BatchFromStarted(sc, views, titles, runs, 0, 0.0, w);
    BatchFromRows(sc, views, titles, runs, 0, 0.0, w);
  }

  // ---------------------------------------------------------------------------------------
  // Sequences of rows

  /** `List.Remove`: drops the first occurrence of `x`, if any. */
  function RemoveFirst<T(==)>(s: seq<T>, x: T): seq<T>
    decreases |s|
  {
    if s == [] then []
    else if s[0] == x then s[1..]
    else [s[0]] + RemoveFirst(s[1..], x)
  }

  /** `List.Remove` drops exactly one occurrence when there is one, and nothing otherwise. */
  lemma {:induction false} RemoveFirstOne<T>(s: seq<T>, x: T)
    ensures x !in s ==> RemoveFirst(s, x) == s
    ensures x in s ==> |RemoveFirst(s, x)| == |s| - 1
    ensures x in s ==> multiset(RemoveFirst(s, x)) == multiset(s) - multiset{x}
    decreases |s|
  {
    if s != [] {
      RemoveFirstOne(s[1..], x);
      assert s == [s[0]] + s[1..];
    }
  }

  /** The elements of `s` in `d`, in order. */
  function Keep<T(==)>(s: seq<T>, d: set<T>): (r: seq<T>)
    ensures |r| <= |s|
    decreases |s|
  {
    if s == [] then [] else (if s[0] in d then [s[0]] else []) + Keep(s[1..], d)
  }

  /** The elements of `s` not in `d`, in order. */
  function Drop<T(==)>(s: seq<T>, d: set<T>): (r: seq<T>)
    ensures |r| <= |s|
    decreases |s|
  {
    if s == [] then [] else (if s[0] in d then [] else [s[0]]) + Drop(s[1..], d)
  }

  /** `Keep` holds the elements of `s` in `d`, and only those. */
  lemma {:induction false} KeepMembers<T>(s: seq<T>, d: set<T>)
    ensures forall x :: x in Keep(s, d) <==> x in s && x in d
    decreases |s|
  {
    if s != [] {
      KeepMembers(s[1..], d);
      assert s == [s[0]] + s[1..];
    }
  }

  /** `Drop` holds the elements of `s` not in `d`, and only those. */
  lemma {:induction false} DropMembers<T>(s: seq<T>, d: set<T>)
    ensures forall x :: x in Drop(s, d) <==> x in s && x !in d
    decreases |s|
  {
    if s != [] {
      DropMembers(s[1..], d);
      assert s == [s[0]] + s[1..];
    }
  }

  /** `s` without the first `n` of its elements that are in `d`. */
  function DropFirst<T(==)>(s: seq<T>, d: set<T>, n: nat): seq<T>
    decreases |s|
  {
    if n == 0 || s == [] then s
    else if s[0] in d then DropFirst(s[1..], d, n - 1)
    else [s[0]] + DropFirst(s[1..], d, n)
  }

  /** Removing the next kept element removes exactly the first remaining element of `d`. */
  lemma {:induction false} RemoveNext<T>(s: seq<T>, d: set<T>, n: nat)
    requires n < |Keep(s, d)|
    ensures RemoveFirst(DropFirst(s, d, n), Keep(s, d)[n]) == DropFirst(s, d, n + 1)
    decreases |s|
  {
    if s[0] in d {
      KeepKeeps(s, d);
      if n > 0 {
        RemoveNext(s[1..], d, n - 1);
      }
      RemoveNextAt(s, d, n);
    } else {
      KeepSkips(s, d);
      RemoveNext(s[1..], d, n);
      RemoveNextPast(s, d, n);
    }
  }

  /** The step of `RemoveNext` over a head that is in `d`: it is the one removed first. */
  lemma RemoveNextAt<T>(s: seq<T>, d: set<T>, n: nat)
    requires |s| > 0 && s[0] in d && n < |Keep(s, d)|
    requires Keep(s, d) == [s[0]] + Keep(s[1..], d)
    requires n > 0 ==> RemoveFirst(DropFirst(s[1..], d, n - 1), Keep(s[1..], d)[n - 1]) == DropFirst(s[1..], d, n - 1 + 1)
    ensures RemoveFirst(DropFirst(s, d, n), Keep(s, d)[n]) == DropFirst(s, d, n + 1)
  {
    if n == 0 {
      assert DropFirst(s, d, 0) == s;
      RemoveFirstHead(s);
    }
  }

  /** A head in `d` is the first kept element. */
  lemma KeepKeeps<T>(s: seq<T>, d: set<T>)
    requires |s| > 0 && s[0] in d
    ensures Keep(s, d) == [s[0]] + Keep(s[1..], d)
  {
  }

  /** A head not in `d` is not kept. */
  lemma KeepSkips<T>(s: seq<T>, d: set<T>)
    requires |s| > 0 && s[0] !in d
    ensures Keep(s, d) == Keep(s[1..], d)
  {
    assert [] + Keep(s[1..], d) == Keep(s[1..], d);
  }

  /** Removing the head of a sequence leaves its tail. */
  lemma RemoveFirstHead<T>(s: seq<T>)
    requires |s| > 0
    ensures RemoveFirst(s, s[0]) == s[1..]
  {
  }

  /** Removing an element other than the head keeps the head in front. */
  lemma RemoveFirstPast<T>(x: T, t: seq<T>, y: T)
    requires x != y
    ensures RemoveFirst([x] + t, y) == [x] + RemoveFirst(t, y)
  {
    assert ([x] + t)[0] == x && ([x] + t)[1..] == t;
  }

  /** Dropping kept elements past a head not in `d` keeps the head in front. */
  lemma DropFirstPast<T>(s: seq<T>, d: set<T>, n: nat)
    requires |s| > 0 && s[0] !in d
    ensures DropFirst(s, d, n) == [s[0]] + DropFirst(s[1..], d, n)
  {
    if n == 0 {
      assert s == [s[0]] + s[1..];
    }
  }

  /** The step of `RemoveNext` over a head that is not in `d`. */
  lemma RemoveNextPast<T>(s: seq<T>, d: set<T>, n: nat)
    requires |s| > 0 && s[0] !in d && n < |Keep(s[1..], d)|
    requires Keep(s, d) == Keep(s[1..], d)
    requires RemoveFirst(DropFirst(s[1..], d, n), Keep(s[1..], d)[n]) == DropFirst(s[1..], d, n + 1)
    ensures RemoveFirst(DropFirst(s, d, n), Keep(s, d)[n]) == DropFirst(s, d, n + 1)
  {
    var y := Keep(s[1..], d)[n];
    KeepMembers(s[1..], d);
    assert y in Keep(s[1..], d);
    DropFirstPast(s, d, n);
    DropFirstPast(s, d, n + 1);
    RemoveFirstPast(s[0], DropFirst(s[1..], d, n), y);
  }

  /** Once every kept element is removed, what is left is `Drop(s, d)`. */
  lemma {:induction false} DropAll<T>(s: seq<T>, d: set<T>)
    ensures DropFirst(s, d, |Keep(s, d)|) == Drop(s, d)
    decreases |s|
  {
    if s != [] {
      var x := s[0];
      var t := s[1..];
      DropAll(t, d);
      if x in d {
        assert Keep(s, d) == [x] + Keep(t, d);
      } else {
        assert Keep(s, d) == Keep(t, d);
        if |Keep(t, d)| == 0 {
          NoneKept(t, d);
        }
      }
    }
  }

  lemma {:induction false} NoneKept<T>(s: seq<T>, d: set<T>)
    requires |Keep(s, d)| == 0
    ensures Drop(s, d) == s
    decreases |s|
  {
    if s != [] {
      assert s[0] !in d;
      NoneKept(s[1..], d);
      assert s == [s[0]] + s[1..];
    }
  }

  // ---------------------------------------------------------------------------------------
  // The view model

  function Views(items: seq<DownloadItem>): (r: seq<ItemView>)
    reads items
    ensures |r| == |items|
    ensures forall k :: 0 <= k < |items| ==> r[k] == ItemView(items[k].status, items[k].progress)
    decreases |items|
  {
    if items == [] then [] else Views(items[..|items| - 1]) + [ItemView(items[|items| - 1].status, items[|items| - 1].progress)]
  }

  /** Rows that agree one by one with the items are their views. */
  lemma ViewsAre(items: seq<DownloadItem>, rows: seq<ItemView>)
    requires |rows| == |items|
    requires forall k :: 0 <= k < |items| ==> rows[k] == ItemView(items[k].status, items[k].progress)
    ensures Views(items) == rows
  {
  }

  function Titles(items: seq<DownloadItem>): (r: seq<string>)
    reads items
    ensures |r| == |items|
    ensures forall k :: 0 <= k < |items| ==> r[k] == items[k].title
    decreases |items|
  {
    if items == [] then [] else Titles(items[..|items| - 1]) + [items[|items| - 1].title]
  }

  /** The items a batch takes: selected and not already done, in the list's order. */
  function Selectable(items: seq<DownloadItem>): (r: seq<DownloadItem>)
    reads items
    ensures forall x :: x in r ==> x in items && x.isSelected && x.status != Plain(DoneText)
    ensures forall x :: x in items && x.isSelected && x.status != Plain(DoneText) ==> x in r
    decreases |items|
  {
    if items == [] then []
    else
      var last := items[|items| - 1];
      Selectable(items[..|items| - 1]) + (if last.isSelected && last.status != Plain(DoneText) then [last] else [])
  }

  predicate Distinct(items: seq<DownloadItem>) {
    forall i, j :: 0 <= i < j < |items| ==> items[i] != items[j]
  }

  lemma {:induction false} SelectableDistinct(items: seq<DownloadItem>)
    requires Distinct(items)
    ensures Distinct(Selectable(items))
    decreases |items|
  {
    if items != [] {
      var init := items[..|items| - 1];
      var last := items[|items| - 1];
      assert Distinct(init);
      SelectableDistinct(init);
      assert last !in Selectable(init);
    }
  }

  class MainViewModel {
    var downloadItems: seq<DownloadItem>
    var selectedGridItem: DownloadItem?
    var statusMessage: StatusLine
    var batchStatusMessage: BatchLine
    var totalProgress: real
    var isDownloading: bool
    var startButtonText: string
    /** `_cts != null` */
    var hasTokenSource: bool
    /** The token of the current batch has fired. */
    var canceled: bool

    function View(): Screen
      reads this
    {
      Screen(statusMessage, batchStatusMessage, totalProgress, canceled)
    }

    /** The button reads "AVBRYT" exactly while a batch runs. */
    predicate Valid()
      reads this
    {
      startButtonText == ButtonText(isDownloading)
    }

    constructor ()
      ensures Valid() && downloadItems == [] && selectedGridItem == null
      ensures !isDownloading && !hasTokenSource && !canceled
    {
      downloadItems := [];
      selectedGridItem := null;
      statusMessage := Note("");
      batchStatusMessage := BatchNote("");
      totalProgress := 0.0;
      isDownloading := false;
      startButtonText := StartButtonIdle;
      hasTokenSource := false;
      canceled := false;
    }

    /** The `IsDownloading` setter also sets the button text. */
    method SetIsDownloading(value: bool)
      modifies this
      ensures isDownloading == value && startButtonText == ButtonText(value) && Valid()
      ensures View() == old(View()) && downloadItems == old(downloadItems)
      ensures selectedGridItem == old(selectedGridItem) && hasTokenSource == old(hasTokenSource)
    {
      isDownloading := value;
      startButtonText := if value then StartButtonBusy else StartButtonIdle;
    }

    /** The start button while a batch runs: fires the token if there is one. */
    method RequestCancel()
      modifies this
      ensures View() == if old(hasTokenSource) then OnCancel(old(View())) else old(View())
      ensures isDownloading == old(isDownloading) && startButtonText == old(startButtonText)
      ensures downloadItems == old(downloadItems) && selectedGridItem == old(selectedGridItem)
      ensures hasTokenSource == old(hasTokenSource)
    {
      if hasTokenSource {
        canceled := true;
        statusMessage := Note(CancelingText);
        batchStatusMessage := BatchNote(StoppingText);
      }
    }

    /** The items the start button would download. */
    function Pending(): seq<DownloadItem>
      reads this, downloadItems
    {
      Selectable(downloadItems)
    }

    /** Removes the selected row, if there is one. */
    method RemoveItem()
      modifies this
      ensures old(selectedGridItem) == null ==> downloadItems == old(downloadItems)
      ensures old(selectedGridItem) != null ==>
        downloadItems == RemoveFirst(old(downloadItems), old(selectedGridItem) as DownloadItem)
      ensures View() == old(View()) && isDownloading == old(isDownloading) && startButtonText == old(startButtonText)
      ensures selectedGridItem == old(selectedGridItem) && hasTokenSource == old(hasTokenSource)
    {
      if selectedGridItem != null {
        var selected: DownloadItem := selectedGridItem;
        downloadItems := RemoveFirst(downloadItems, selected);
      }
    }

    /** Removes every row whose status is "Ferdig" and keeps the rest in order. */
    method RemoveFinishedItems()
      modifies this
      ensures var done := set x | x in old(downloadItems) && x.IsDone();
        downloadItems == Drop(old(downloadItems), done)
      ensures View() == old(View()) && isDownloading == old(isDownloading) && startButtonText == old(startButtonText)
      ensures selectedGridItem == old(selectedGridItem) && hasTokenSource == old(hasTokenSource)
    {
      ghost var items0 := downloadItems;
      var done := set x | x in downloadItems && x.IsDone();
      var finished := Keep(downloadItems, done);
      var i := 0;
      while i < |finished|
        invariant 0 <= i <= |finished|
        invariant downloadItems == DropFirst(items0, done, i)
        invariant View() == old(View()) && isDownloading == old(isDownloading) && startButtonText == old(startButtonText)
        invariant selectedGridItem == old(selectedGridItem) && hasTokenSource == old(hasTokenSource)
      {
        RemoveNext(items0, done, i);
        downloadItems := RemoveFirst(downloadItems, finished[i]);
        i := i + 1;
      }
      DropAll(items0, done);
      assert done == set x | x in old(downloadItems) && x.IsDone();
    }

    /** One event while item `index` downloads: a status or percentage report reaching the
        item's callbacks, or a press of the cancel button. */
    method HandleEvent(item: DownloadItem, index: nat, total: nat, base: real, weight: real, e: Event)
      requires hasTokenSource
      modifies this, item`status, item`progress
      ensures (View(), ItemView(item.status, item.progress))
        == OnEvent(old(View()), ItemView(old(item.status), old(item.progress)), index, total, item.title, base, weight, e)
      ensures isDownloading == old(isDownloading) && startButtonText == old(startButtonText)
      ensures downloadItems == old(downloadItems) && selectedGridItem == old(selectedGridItem)
      ensures hasTokenSource
    {
      match e {
        case CancelPressed =>
          RequestCancel();
        case Reported(Status(m)) =>
          item.status := m;
          statusMessage := ItemLine(index, total, item.title, m);
        case Reported(Percent(p)) =>
          item.progress := p;
          var b := Aggregate(base, weight, p);
          totalProgress := b;
          batchStatusMessage := Downloading(index, total, b);
      }
    }

    /** Downloads one item: "Forbereder...", then its events, then its outcome. Of the item only
        the status and the progress are written. */
    method RunItem(item: DownloadItem, index: nat, total: nat, base: real, weight: real, run: ItemRun) returns (stop: bool)
      requires hasTokenSource
      modifies this, item`status, item`progress
      ensures (View(), ItemView(item.status, item.progress), stop)
        == ItemStep(old(View()), ItemView(old(item.status), old(item.progress)), index, total, item.title, base, weight, run)
      ensures isDownloading == old(isDownloading) && startButtonText == old(startButtonText)
      ensures downloadItems == old(downloadItems) && selectedGridItem == old(selectedGridItem)
      ensures hasTokenSource
    {
      item.status := Plain(PreparingText);
      ghost var sc0 := View();
      ghost var it0 := ItemView(item.status, item.progress);
      var j := 0;
      while j < |run.events|
        invariant 0 <= j <= |run.events|
        invariant (View(), ItemView(item.status, item.progress))
          == OnEvents(sc0, it0, index, total, item.title, base, weight, run.events[..j])
        invariant isDownloading == old(isDownloading) && startButtonText == old(startButtonText)
        invariant downloadItems == old(downloadItems) && selectedGridItem == old(selectedGridItem)
        invariant hasTokenSource
      {
        assert run.events[..j + 1][..j] == run.events[..j];
        assert run.events[..j + 1][j] == run.events[j];
        HandleEvent(item, index, total, base, weight, run.events[j]);
        j := j + 1;
      }
      assert run.events[..j] == run.events;
      stop := false;
      match run.end {
        case Returned =>
          item.status := Plain(DoneText);
          item.progress := 100.0;
        case Canceled =>
          item.status := Plain(CanceledText);
          statusMessage := Note(AbortedText);
          stop := true;
        case Faulted(_) =>
          item.status := Plain(FailedText);
      }
      if !stop {
        totalProgress := base + weight;
        batchStatusMessage := FinishedFile(index, total, base + weight);
      }
    }

    /** One pass of the loop: downloads item `i` and records its new row; no other item and no
        other field of it is written. */
    method RunNext(pending: seq<DownloadItem>, runs: seq<ItemRun>, i: nat, base: real, weight: real,
                   ghost views: seq<ItemView>, ghost titles: seq<string>, ghost result: (Screen, seq<ItemView>, nat))
      returns (stop: bool, ghost views': seq<ItemView>)
      requires hasTokenSource && !canceled
      requires Distinct(pending) && |runs| == |pending| == |views| == |titles| && i < |pending|
      requires forall k :: 0 <= k < |pending| ==> views[k] == ItemView(pending[k].status, pending[k].progress)
      requires forall k :: 0 <= k < |pending| ==> titles[k] == pending[k].title
      requires BatchFrom(View(), views, titles, runs, i, base, weight) == result
      modifies this, (pending[i] as DownloadItem)`status, (pending[i] as DownloadItem)`progress
      ensures |views'| == |pending|
      ensures forall k :: 0 <= k < |pending| ==> views'[k] == ItemView(pending[k].status, pending[k].progress)
      ensures forall k :: 0 <= k < |pending| ==> titles[k] == pending[k].title
      ensures stop ==> result == (View(), views', i + 1)
      ensures !stop ==> BatchFrom(View(), views', titles, runs, i + 1, base + weight, weight) == result
      ensures hasTokenSource && isDownloading == old(isDownloading) && startButtonText == old(startButtonText)
      ensures downloadItems == old(downloadItems) && selectedGridItem == old(selectedGridItem)
    {
      var item := pending[i];
      ghost var sc0 := View();
      stop := RunItem(item, i + 1, |pending|, base, weight, runs[i]);
      BatchFromNext(sc0, views, titles, runs, i, base, weight, View(), ItemView(item.status, item.progress), stop);
      views' := views[i := ItemView(item.status, item.progress)];
      assert forall k :: 0 <= k < |pending| && k != i ==> pending[k] != item;
    }

    /** The loop over the pending items, writing only their status and progress. */
    method RunBatch(pending: seq<DownloadItem>, runs: seq<ItemRun>, weight: real)
      requires Valid() && isDownloading && hasTokenSource
      requires Distinct(pending) && |runs| == |pending|
      modifies this, pending`status, pending`progress
      ensures var r := BatchFrom(old(View()), old(Views(pending)), old(Titles(pending)), runs, 0, 0.0, weight);
        View() == r.0 && Views(pending) == r.1
      ensures Valid() && isDownloading && hasTokenSource
      ensures downloadItems == old(downloadItems) && selectedGridItem == old(selectedGridItem)
    {
      var total := |pending|;
      var base := 0.0;
      ghost var titles := Titles(pending);
      ghost var views := Views(pending);
      ghost var result := BatchFrom(View(), views, titles, runs, 0, 0.0, weight);
      var i := 0;
      while i < total
        invariant 0 <= i <= total
        invariant base == Times(weight, i)
        invariant Valid() && isDownloading && hasTokenSource
        invariant downloadItems == old(downloadItems) && selectedGridItem == old(selectedGridItem)
        invariant |views| == total && |titles| == total
        invariant forall k :: 0 <= k < total ==> views[k] == ItemView(pending[k].status, pending[k].progress)
        invariant forall k :: 0 <= k < total ==> titles[k] == pending[k].title
        invariant BatchFrom(View(), views, titles, runs, i, base, weight) == result
        decreases total - i
      {
        if canceled {
          assert result == (View(), views, i);
          break;
        }
        var stop;
        stop, views := RunNext(pending, runs, i, base, weight, views, titles, result);
        if stop {
          break;
        }
        base := base + weight;
        i := i + 1;
      }
      ViewsAre(pending, views);
    }

    /** The start button. While a batch runs it only cancels. Otherwise it downloads the pending
        items in order with equal weights, `runs[k]` telling how item `k`'s download goes, and
        ends with the `finally` block. Of the rows only the status and progress are written, so
        their address, title, selection, language and resolutions stay as they were. */
    method ToggleDownload(runs: seq<ItemRun>)
      requires Valid()
      requires Distinct(downloadItems)
      requires isDownloading || |runs| == |Pending()|
      modifies this, downloadItems`status, downloadItems`progress
      ensures Valid() && downloadItems == old(downloadItems) && selectedGridItem == old(selectedGridItem)
      ensures old(isDownloading) ==>
        View() == (if old(hasTokenSource) then OnCancel(old(View())) else old(View()))
        && isDownloading && hasTokenSource == old(hasTokenSource)
        && forall x :: x in downloadItems ==> unchanged(x)
      ensures !old(isDownloading) && |old(Pending())| == 0 ==>
        View() == old(View()).(statusMessage := Note(NothingSelectedText)) && !isDownloading
        && forall x :: x in downloadItems ==> unchanged(x)
      ensures !old(isDownloading) && |old(Pending())| > 0 ==>
        var pending := old(Pending());
        var start := Screen(Note(StartingText), Downloading(1, |pending|, 0.0), old(totalProgress), false);
        var r := BatchFrom(start, old(Views(pending)), old(Titles(pending)), runs, 0, 0.0, Weight(|pending|));
        View() == Finish(r.0) && Views(pending) == r.1 && !isDownloading && !hasTokenSource
        && forall x :: x in downloadItems && x !in pending ==> unchanged(x)
    {
      if isDownloading {
        RequestCancel();
        return;
      }
      var pending := Pending();
      if |pending| == 0 {
        statusMessage := Note(NothingSelectedText);
        return;
      }
      SelectableDistinct(downloadItems);
      assert forall k :: 0 <= k < |pending| ==> pending[k] in downloadItems;
      StartBatch(pending, runs);
    }

    /** A batch over the pending items, from the first status lines to the `finally` block; of
        the items only the status and progress are written. */
    method StartBatch(pending: seq<DownloadItem>, runs: seq<ItemRun>)
      requires Valid() && !isDownloading
      requires Distinct(pending) && |pending| > 0 && |runs| == |pending|
      modifies this, pending`status, pending`progress
      ensures var start := Screen(Note(StartingText), Downloading(1, |pending|, 0.0), old(totalProgress), false);
        var r := BatchFrom(start, old(Views(pending)), old(Titles(pending)), runs, 0, 0.0, Weight(|pending|));
        View() == Finish(r.0) && Views(pending) == r.1
      ensures Valid() && !isDownloading && !hasTokenSource
      ensures downloadItems == old(downloadItems) && selectedGridItem == old(selectedGridItem)
    {
      BeginBatch(|pending|);
      RunBatch(pending, runs, Weight(|pending|));
      EndBatch();
    }

    /** The lines before the loop: busy, a fresh token, "Starter nedlasting..." and item 1 at 0%. */
    method BeginBatch(total: nat)
      requires !isDownloading
      modifies this
      ensures View() == Screen(Note(StartingText), Downloading(1, total, 0.0), old(totalProgress), false)
      ensures Valid() && isDownloading && hasTokenSource
      ensures downloadItems == old(downloadItems) && selectedGridItem == old(selectedGridItem)
    {
      SetIsDownloading(true);
      hasTokenSource := true;
      canceled := false;
      statusMessage := Note(StartingText);
      batchStatusMessage := Downloading(1, total, 0.0);
    }

    /** The `finally` block: idle, the token dropped, and the closing lines. */
    method EndBatch()
      modifies this
      ensures View() == Finish(old(View()))
      ensures Valid() && !isDownloading && !hasTokenSource
      ensures downloadItems == old(downloadItems) && selectedGridItem == old(selectedGridItem)
    {
      SetIsDownloading(false);
      hasTokenSource := false;
      if statusMessage != Note(AbortedText) {
        statusMessage := Note(AllDoneText);
        batchStatusMessage := BatchNote(BatchDoneText);
        totalProgress := 100.0;
      } else {
        batchStatusMessage := BatchNote(StoppedText);
      }
    }
  }
}
