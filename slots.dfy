/**
 * `generateTimeSlots` of `src/utils/dates.ts`: the bookable windows of one
 * day for a service of a given length.
 *
 * The source walks the hours 9..16 and, inside each hour, the minute offsets
 * 0, d, 2d, ... below 60 (d the service duration).  Each such start is a
 * candidate; a candidate is kept when its end, read on the clock, is not
 * later than 17:00.  Start times are written as minutes since midnight.
 */
module Slots {
  import opened Arith
  import opened Dates
  import opened Seqs

  const OpenHour := 9
  const CloseHour := 17

  /** A bookable window; the source's `id` is the start time itself. */
  datatype TimeSlot = TimeSlot(id: DateTime, startTime: DateTime, endTime: DateTime, available: bool)

  // ---------------------------------------------------------------------------
  // The candidates of the nested loop, and the end-of-day test
  // ---------------------------------------------------------------------------

  /** The starts the loops visit from (hour, minute) on, in visiting order. */
  function Candidates(hour: int, minute: int, duration: int): seq<int>
    requires duration > 0
    decreases CloseHour - hour, 60 - minute
  {
    if hour >= CloseHour then []
    else if minute >= 60 then Candidates(hour + 1, 0, duration)
    else [hour * 60 + minute] + Candidates(hour, minute + duration, duration)
  }

  /** The test of line 55 on the end's clock reading (minutes since its midnight). */
  predicate ClockWithinHours(endClock: int)
  {
    !(endClock / 60 > CloseHour || (endClock / 60 == CloseHour && endClock % 60 > 0))
  }

  /** As written: the end is read on the clock, so an end after midnight reads as early morning. */
  predicate Fits(start: int, duration: int)
  {
    ClockWithinHours((start + duration) % MinutesPerDay)
  }

  function KeepFitting(xs: seq<int>, duration: int): seq<int>
  {
    if xs == [] then [] else (if Fits(xs[0], duration) then [xs[0]] else []) + KeepFitting(xs[1..], duration)
  }

  /** The start times that `generateTimeSlots` emits, in order. */
  function SlotStarts(duration: int): seq<int>
    requires duration > 0
  {
    KeepFitting(Candidates(OpenHour, 0, duration), duration)
  }

  // ---------------------------------------------------------------------------
  // The intended rule: a window must end by 17:00 of its own day
  // ---------------------------------------------------------------------------

  predicate EndsByClose(start: int, duration: int)
  {
    start + duration <= CloseHour * 60
  }

  function KeepEndingByClose(xs: seq<int>, duration: int): seq<int>
  {
    if xs == [] then []
    else (if EndsByClose(xs[0], duration) then [xs[0]] else []) + KeepEndingByClose(xs[1..], duration)
  }

  function IntendedStarts(duration: int): seq<int>
    requires duration > 0
  {
    KeepEndingByClose(Candidates(OpenHour, 0, duration), duration)
  }

  /** The slot the loop body builds for `start` on `day`. */
  function SlotAt(day: Date, start: int, duration: int, isFree: int -> bool): TimeSlot
  {
    var s := DateTime(day, start);
    TimeSlot(s, s, AddMinutes(s, duration), isFree(start))
  }

  // ---------------------------------------------------------------------------
  // generateTimeSlots (src/utils/dates.ts:36-69)
  // ---------------------------------------------------------------------------

  /**
   * `generateTimeSlots`.  The random availability flag is the caller's
   * `isFree`, read at each emitted start.  A duration that is not positive
   * makes the source's inner loop run forever, so it is excluded.
   */
  method GenerateTimeSlots(date: DateTime, serviceDuration: int, isFree: int -> bool) returns (slots: seq<TimeSlot>)
    requires ValidDateTime(date)
    requires serviceDuration > 0
    ensures slots == SlotsOn(date.date, SlotStarts(serviceDuration), serviceDuration, isFree)
  {
    slots := [];
    ghost var emitted: seq<int> := [];
    var hour := OpenHour;
    while hour < CloseHour
      invariant OpenHour <= hour <= CloseHour
      invariant EmittedSoFar(emitted, hour, 0, serviceDuration)
      invariant slots == SlotsOn(date.date, emitted, serviceDuration, isFree)
    {
      var minute := 0;
      while minute < 60
        invariant 0 <= minute
        invariant EmittedSoFar(emitted, hour, minute, serviceDuration)
        invariant slots == SlotsOn(date.date, emitted, serviceDuration, isFree)
      {
        var slotDate := DateTime(date.date, hour * 60 + minute);
        var endDate := AddMinutes(slotDate, serviceDuration);
        InnerStep(date.date, emitted, hour, minute, slotDate, endDate, serviceDuration, isFree);
        if ClockWithinHours(endDate.minute) {
          slots := slots + [TimeSlot(slotDate, slotDate, endDate, isFree(slotDate.minute))];
        }
        emitted := Emit(emitted, slotDate.minute, serviceDuration);
        ghost var visited := minute;
        minute := minute + serviceDuration;
        NextOffset(emitted, hour, visited, minute, serviceDuration);
      }
      ghost var finished := hour;
      hour := hour + 1;
      NextHour(emitted, finished, minute, hour, serviceDuration);
    }
    AllHoursDone(emitted, hour, serviceDuration);
  }

  /** What the slots built for all of `SlotStarts` satisfy; these are the promises of `GenerateTimeSlots`. */
  lemma SlotsForDay(day: Date, d: int, isFree: int -> bool)
    requires ValidDate(day) && d > 0
    ensures var slots := SlotsOn(day, SlotStarts(d), d, isFree);
            && |slots| == |SlotStarts(d)|
            && (forall i :: 0 <= i < |slots| ==>
                  var start := SlotStarts(d)[i];
                  && slots[i].startTime == DateTime(day, start)
                  && slots[i].id == slots[i].startTime
                  && slots[i].endTime == AddMinutes(slots[i].startTime, d)
                  && slots[i].available == isFree(start))
            && (forall i, j :: 0 <= i < j < |slots| ==> Before(slots[i].startTime, slots[j].startTime))
            && (forall i, j :: 0 <= i < j < |slots| ==> slots[i].id != slots[j].id)
            && (d < 480 ==> forall i :: 0 <= i < |slots| ==>
                  slots[i].endTime == DateTime(day, slots[i].startTime.minute + d)
                  && slots[i].endTime.minute <= CloseHour * 60)
  {
    SlotsOnIndex(day, SlotStarts(d), d, isFree);
    SlotTimesOnDay(day, d);
  }

  /** The starts emitted so far, followed by those still to come from (hour, minute), are all of `SlotStarts`. */
  predicate EmittedSoFar(emitted: seq<int>, hour: int, minute: int, d: int)
    requires d > 0
  {
    emitted + KeepFitting(Candidates(hour, minute, d), d) == SlotStarts(d)
  }

  /** The emitted starts after visiting `start`. */
  function Emit(emitted: seq<int>, start: int, d: int): seq<int>
  {
    if Fits(start, d) then emitted + [start] else emitted
  }

  /** The slots built for `starts`, in order. */
  function SlotsOn(day: Date, starts: seq<int>, duration: int, isFree: int -> bool): seq<TimeSlot>
  {
    if starts == [] then []
    else SlotsOn(day, starts[..|starts| - 1], duration, isFree) + [SlotAt(day, starts[|starts| - 1], duration, isFree)]
  }

  /** One pass of the inner loop body: the test on the end's clock is `Fits`, and the slot it adds is `SlotAt`. */
  lemma InnerStep(day: Date, emitted: seq<int>, hour: int, minute: int, slotDate: DateTime, endDate: DateTime, d: int,
                  isFree: int -> bool)
    requires d > 0 && hour < CloseHour && 0 <= minute < 60
    requires slotDate == DateTime(day, hour * 60 + minute) && endDate == AddMinutes(slotDate, d)
    requires EmittedSoFar(emitted, hour, minute, d)
    ensures EmittedSoFar(Emit(emitted, slotDate.minute, d), hour, minute + d, d)
    ensures ClockWithinHours(endDate.minute) == Fits(slotDate.minute, d)
    ensures SlotsOn(day, Emit(emitted, slotDate.minute, d), d, isFree)
         == if Fits(slotDate.minute, d)
            then SlotsOn(day, emitted, d, isFree) + [TimeSlot(slotDate, slotDate, endDate, isFree(slotDate.minute))]
            else SlotsOn(day, emitted, d, isFree)
  {
    EmitAdvance(emitted, hour, minute, slotDate.minute, d);
    EndClock(slotDate, endDate, d);
    SlotsOnEmit(day, emitted, slotDate.minute, d, isFree);
  }

  lemma EmitAdvance(emitted: seq<int>, hour: int, minute: int, start: int, d: int)
    requires d > 0 && hour < CloseHour && 0 <= minute < 60 && start == hour * 60 + minute
    requires EmittedSoFar(emitted, hour, minute, d)
    ensures EmittedSoFar(Emit(emitted, start, d), hour, minute + d, d)
  {
    EmitStep(emitted, hour, minute, d);
  }

  /** The source's test on the end's hour and minute is `Fits` on the start. */
  lemma EndClock(slotDate: DateTime, endDate: DateTime, d: int)
    requires endDate == AddMinutes(slotDate, d)
    ensures ClockWithinHours(endDate.minute) == Fits(slotDate.minute, d)
  {
  }

  lemma SlotsOnEmit(day: Date, emitted: seq<int>, start: int, d: int, isFree: int -> bool)
    ensures SlotsOn(day, Emit(emitted, start, d), d, isFree)
         == if Fits(start, d) then SlotsOn(day, emitted, d, isFree) + [SlotAt(day, start, d, isFree)]
            else SlotsOn(day, emitted, d, isFree)
  {
    if Fits(start, d) {
      SlotsOnAppend(day, emitted, start, d, isFree);
    }
  }

  lemma NextOffset(emitted: seq<int>, hour: int, visited: int, minute: int, d: int)
    requires d > 0 && minute == visited + d
    requires EmittedSoFar(emitted, hour, visited + d, d)
    ensures EmittedSoFar(emitted, hour, minute, d)
  {
  }

  lemma NextHour(emitted: seq<int>, finished: int, minute: int, hour: int, d: int)
    requires d > 0 && finished < CloseHour && minute >= 60 && hour == finished + 1
    requires EmittedSoFar(emitted, finished, minute, d)
    ensures EmittedSoFar(emitted, hour, 0, d)
  {
    assert Candidates(finished, minute, d) == Candidates(hour, 0, d);
  }

  lemma AllHoursDone(emitted: seq<int>, hour: int, d: int)
    requires d > 0 && hour >= CloseHour
    requires EmittedSoFar(emitted, hour, 0, d)
    ensures emitted == SlotStarts(d)
  {
    assert Candidates(hour, 0, d) == [];
    assert emitted + [] == emitted;
  }

  lemma SlotsOnAppend(day: Date, starts: seq<int>, x: int, duration: int, isFree: int -> bool)
    ensures SlotsOn(day, starts + [x], duration, isFree) == SlotsOn(day, starts, duration, isFree) + [SlotAt(day, x, duration, isFree)]
  {
    assert (starts + [x])[..|starts|] == starts;
  }

  lemma {:induction false} SlotsOnIndex(day: Date, starts: seq<int>, duration: int, isFree: int -> bool)
    ensures |SlotsOn(day, starts, duration, isFree)| == |starts|
    ensures forall i :: 0 <= i < |starts| ==> SlotsOn(day, starts, duration, isFree)[i] == SlotAt(day, starts[i], duration, isFree)
  {
    if starts != [] {
      SlotsOnIndex(day, starts[..|starts| - 1], duration, isFree);
    }
  }

  /** One pass of the inner loop body keeps the emitted starts a prefix of `SlotStarts`. */
  lemma EmitStep(emitted: seq<int>, hour: int, minute: int, d: int)
    requires d > 0 && hour < CloseHour && 0 <= minute < 60
    requires emitted + KeepFitting(Candidates(hour, minute, d), d) == SlotStarts(d)
    ensures Fits(hour * 60 + minute, d) ==>
              (emitted + [hour * 60 + minute]) + KeepFitting(Candidates(hour, minute + d, d), d) == SlotStarts(d)
    ensures !Fits(hour * 60 + minute, d) ==>
              emitted + KeepFitting(Candidates(hour, minute + d, d), d) == SlotStarts(d)
  {
    var start := hour * 60 + minute;
    var rest := Candidates(hour, minute + d, d);
    assert Candidates(hour, minute, d) == [start] + rest;
    KeepFittingCons(start, rest, d);
    if Fits(start, d) {
      assert (emitted + [start]) + KeepFitting(rest, d) == emitted + ([start] + KeepFitting(rest, d));
    } else {
      assert [] + KeepFitting(rest, d) == KeepFitting(rest, d);
    }
  }

  /** The facts about the emitted starts that `GenerateTimeSlots` passes on, read as times of `day`. */
  lemma SlotTimesOnDay(day: Date, d: int)
    requires ValidDate(day) && d > 0
    ensures forall i, j :: 0 <= i < j < |SlotStarts(d)| ==>
              Before(DateTime(day, SlotStarts(d)[i]), DateTime(day, SlotStarts(d)[j]))
    ensures d < 480 ==> forall i :: 0 <= i < |SlotStarts(d)| ==>
              AddMinutes(DateTime(day, SlotStarts(d)[i]), d) == DateTime(day, SlotStarts(d)[i] + d)
              && SlotStarts(d)[i] + d <= CloseHour * 60
  {
    SlotStartsAscending(d);
    if d < 480 {
      forall i | 0 <= i < |SlotStarts(d)|
        ensures AddMinutes(DateTime(day, SlotStarts(d)[i]), d) == DateTime(day, SlotStarts(d)[i] + d)
        ensures SlotStarts(d)[i] + d <= CloseHour * 60
      {
        SlotsEndByClose(d, SlotStarts(d)[i]);
        MakeDateOfValid(day);
      }
    }
  }

  lemma {:induction false} KeepFittingMembership(xs: seq<int>, d: int)
    ensures forall x :: x in KeepFitting(xs, d) <==> x in xs && Fits(x, d)
  {
    if xs != [] {
      KeepFittingMembership(xs[1..], d);
      assert xs == [xs[0]] + xs[1..];
    }
  }

  lemma {:induction false} KeepEndingByCloseMembership(xs: seq<int>, d: int)
    ensures forall x :: x in KeepEndingByClose(xs, d) <==> x in xs && EndsByClose(x, d)
  {
    if xs != [] {
      KeepEndingByCloseMembership(xs[1..], d);
      assert xs == [xs[0]] + xs[1..];
    }
  }

  lemma KeepFittingCons(x: int, xs: seq<int>, duration: int)
    ensures KeepFitting([x] + xs, duration) == (if Fits(x, duration) then [x] else []) + KeepFitting(xs, duration)
  {
    assert ([x] + xs)[1..] == xs;
  }

  // ---------------------------------------------------------------------------
  // Which starts are candidates, and in which order
  // ---------------------------------------------------------------------------

  /** The first minute a call of `Candidates(hour, minute, _)` can still visit. */
  function Lower(hour: int, minute: int): int
  {
    if minute >= 60 then (hour + 1) * 60 else hour * 60 + minute
  }

  /** On the loop's grid: inside business hours, at a minute offset that is a multiple of `d`. */
  predicate OnGrid(x: int, d: int)
    requires d > 0
  {
    OpenHour * 60 <= x < CloseHour * 60 && (x % 60) % d == 0
  }

  lemma {:induction false} CandidatesMembership(hour: int, minute: int, d: int)
    requires d > 0 && OpenHour <= hour && 0 <= minute && minute % d == 0
    ensures forall x :: x in Candidates(hour, minute, d) <==> Lower(hour, minute) <= x && OnGrid(x, d)
    decreases CloseHour - hour, 60 - minute
  {
    if hour >= CloseHour {
    } else if minute >= 60 {
      CandidatesMembership(hour + 1, 0, d);
    } else {
      assert (minute + d) % d == 0 by {
        MulSplit(d, minute / d, 1);
        DivModUnique(minute + d, d, minute / d + 1, 0);
      }
      CandidatesMembership(hour, minute + d, d);
      var first := hour * 60 + minute;
      assert Candidates(hour, minute, d) == [first] + Candidates(hour, minute + d, d);
      DivModUnique(first, 60, hour, minute);
      assert OnGrid(first, d);
      forall x | Lower(hour, minute) <= x && OnGrid(x, d)
        ensures x == first || Lower(hour, minute + d) <= x
      {
        if x < Lower(hour, minute + d) && x != first {
          // x lies strictly between two consecutive offsets of this hour
          var r := x - first;
          assert 0 < r < d && minute + r < 60;
          DivModUnique(x, 60, hour, minute + r);
          ModOffset(minute, r, d);
          assert false;
        }
      }
    }
  }

  lemma {:induction false} CandidatesAscending(hour: int, minute: int, d: int)
    requires d > 0
    ensures StrictlyAscending(Candidates(hour, minute, d))
    ensures forall x :: x in Candidates(hour, minute, d) ==> Lower(hour, minute) <= x
    decreases CloseHour - hour, 60 - minute
  {
    if hour >= CloseHour {
    } else if minute >= 60 {
      CandidatesAscending(hour + 1, 0, d);
    } else {
      var first := hour * 60 + minute;
      var rest := Candidates(hour, minute + d, d);
      assert Candidates(hour, minute, d) == [first] + rest;
      CandidatesAscending(hour, minute + d, d);
      assert first < Lower(hour, minute + d);
      assert forall y :: y in rest ==> first < y;
      AscendingCons(first, rest);
    }
  }

  lemma AscendingCons(x: int, ys: seq<int>)
    requires StrictlyAscending(ys) && forall y :: y in ys ==> x < y
    ensures StrictlyAscending([x] + ys)
  {
    var zs := [x] + ys;
    forall i, j | 0 <= i < j < |zs| ensures zs[i] < zs[j] {
      assert zs[j] == ys[j - 1] && ys[j - 1] in ys;
      if i > 0 {
        assert zs[i] == ys[i - 1];
      }
    }
  }

  lemma {:induction false} KeepFittingAscending(xs: seq<int>, d: int)
    requires StrictlyAscending(xs)
    ensures StrictlyAscending(KeepFitting(xs, d))
  {
    if xs != [] {
      KeepFittingAscending(xs[1..], d);
      var rest := KeepFitting(xs[1..], d);
      KeepFittingMembership(xs[1..], d);
      forall y | y in rest ensures xs[0] < y {
        var k :| 0 <= k < |xs[1..]| && xs[1..][k] == y;
        assert xs[k + 1] == y;
      }
      if Fits(xs[0], d) {
        AscendingCons(xs[0], rest);
      }
    }
  }

  // ---------------------------------------------------------------------------
  // What generateTimeSlots promises
  // ---------------------------------------------------------------------------

  /** The emitted starts are exactly the grid points whose window passes the test, each once. */
  lemma SlotStartsExactly(d: int)
    requires d > 0
    ensures forall x :: x in SlotStarts(d) <==> OnGrid(x, d) && Fits(x, d)
  {
    CandidatesMembership(OpenHour, 0, d);
    KeepFittingMembership(Candidates(OpenHour, 0, d), d);
  }

  lemma SlotStartsAscending(d: int)
    requires d > 0
    ensures StrictlyAscending(SlotStarts(d))
    ensures Distinct(SlotStarts(d))
  {
    CandidatesAscending(OpenHour, 0, d);
    KeepFittingAscending(Candidates(OpenHour, 0, d), d);
  }

  /** Every start is in an hour from 9 to 16, at an offset below 60 that is a multiple of `d`. */
  lemma SlotStartShape(d: int, x: int)
    requires d > 0 && x in SlotStarts(d)
    ensures OpenHour <= x / 60 < CloseHour
    ensures x % 60 < 60 && (x % 60) % d == 0
    ensures d >= 60 ==> x % 60 == 0
  {
    SlotStartsExactly(d);
    if d >= 60 {
      DivModUnique(x % 60, d, 0, x % 60);
    }
  }

  /** On a clock reading of the same day, the test of line 55 accepts exactly the ends up to 17:00. */
  lemma ClockWithinHoursExactly(c: int)
    requires 0 <= c
    ensures ClockWithinHours(c) <==> c <= CloseHour * 60
  {
    DivModUnique(c, 60, c / 60, c % 60);
  }

  /** Below 480 minutes a grid start passes the clock test exactly when its window ends by 17:00. */
  lemma FitsBelow480(x: int, d: int)
    requires 0 < d < 480 && OnGrid(x, d)
    ensures Fits(x, d) <==> EndsByClose(x, d)
    ensures EndsByClose(x, d) ==> (x + d) % MinutesPerDay == x + d
  {
    if x + d < MinutesPerDay {
      DivModUnique(x + d, MinutesPerDay, 0, x + d);
      ClockWithinHoursExactly(x + d);
    } else {
      // only a start in the last hour with a duration above seven hours gets here
      DivModUnique(x % 60, d, 0, x % 60);
      assert false;
    }
  }

  /** Below 480 minutes every window ends at or before 17:00 of the same day. */
  lemma SlotsEndByClose(d: int, x: int)
    requires 0 < d < 480 && x in SlotStarts(d)
    ensures x + d <= CloseHour * 60
    ensures (x + d) % MinutesPerDay == x + d
  {
    SlotStartsExactly(d);
    FitsBelow480(x, d);
  }

  /** For durations below 480 the clock test is the intended same-day test. */
  lemma {:induction false} KeepFilterAgree(xs: seq<int>, d: int)
    requires forall x :: x in xs ==> (Fits(x, d) <==> EndsByClose(x, d))
    ensures KeepFitting(xs, d) == KeepEndingByClose(xs, d)
  {
    if xs != [] {
      KeepFilterAgree(xs[1..], d);
    }
  }

  lemma AsWrittenAgreesBelow480(d: int)
    requires 0 < d < 480
    ensures SlotStarts(d) == IntendedStarts(d)
  {
    CandidatesMembership(OpenHour, 0, d);
    forall x | x in Candidates(OpenHour, 0, d)
      ensures Fits(x, d) <==> EndsByClose(x, d)
    {
      FitsBelow480(x, d);
    }
    KeepFilterAgree(Candidates(OpenHour, 0, d), d);
  }

  /** The intended rule keeps every window inside business hours, whatever the duration. */
  lemma IntendedStartsEndByClose(d: int)
    requires d > 0
    ensures forall x :: x in IntendedStarts(d) <==> OnGrid(x, d) && x + d <= CloseHour * 60
  {
    CandidatesMembership(OpenHour, 0, d);
    KeepEndingByCloseMembership(Candidates(OpenHour, 0, d), d);
  }

  lemma KeepFittingAll(xs: seq<int>, d: int)
    requires forall x :: x in xs ==> Fits(x, d)
    ensures KeepFitting(xs, d) == xs
  {
    if xs != [] {
      KeepFittingAll(xs[1..], d);
      assert [xs[0]] + xs[1..] == xs;
    }
  }

  /** Durations from 30 to 59 minutes: each hour from `h` on, on the hour and `d` minutes past. */
  function TwoPerHourFrom(h: int, d: int): seq<int>
    decreases CloseHour - h
  {
    if h >= CloseHour then [] else [h * 60, h * 60 + d] + TwoPerHourFrom(h + 1, d)
  }

  lemma {:induction false} TwoPerHourCandidates(h: int, d: int)
    requires 30 <= d < 60
    ensures Candidates(h, 0, d) == TwoPerHourFrom(h, d)
    decreases CloseHour - h
  {
    if h < CloseHour {
      TwoPerHourCandidates(h + 1, d);
      assert Candidates(h, 2 * d, d) == Candidates(h + 1, 0, d);
      assert Candidates(h, d, d) == [h * 60 + d] + Candidates(h + 1, 0, d);
    }
  }

  lemma {:induction false} TwoPerHourIndex(h: int, d: int)
    requires OpenHour <= h <= CloseHour
    ensures |TwoPerHourFrom(h, d)| == 2 * (CloseHour - h)
    ensures forall i :: 0 <= i < |TwoPerHourFrom(h, d)| ==>
              TwoPerHourFrom(h, d)[i] == (h + i / 2) * 60 + (if i % 2 == 0 then 0 else d)
    decreases CloseHour - h
  {
    if h < CloseHour {
      TwoPerHourIndex(h + 1, d);
      var rest := TwoPerHourFrom(h + 1, d);
      assert TwoPerHourFrom(h, d) == [h * 60, h * 60 + d] + rest;
      forall i | 2 <= i < |TwoPerHourFrom(h, d)|
        ensures TwoPerHourFrom(h, d)[i] == (h + i / 2) * 60 + (if i % 2 == 0 then 0 else d)
      {
        assert TwoPerHourFrom(h, d)[i] == rest[i - 2];
        DivModUnique(i, 2, (i - 2) / 2 + 1, (i - 2) % 2);
      }
    }
  }

  /** Which of the two-per-hour starts end by 17:00: all but 16:00 plus `d`, and that one too when `d` = 30. */
  lemma TwoPerHourEnd(k: int, d: int)
    requires 0 <= k < 16 && 30 <= d < 60
    ensures (OpenHour + k / 2) * 60 + (if k % 2 == 0 then 0 else d) + d <= CloseHour * 60 <==> k < 15 || d == 30
  {
    DivModUnique(k, 2, k / 2, k % 2);
  }

  lemma TwoPerHourKept(d: int)
    requires 30 <= d < 60
    ensures SlotStarts(d) == if d == 30 then TwoPerHourFrom(OpenHour, d) else TwoPerHourFrom(OpenHour, d)[..15]
  {
    TwoPerHourCandidates(OpenHour, d);
    TwoPerHourIndex(OpenHour, d);
    CandidatesMembership(OpenHour, 0, d);
    var c := TwoPerHourFrom(OpenHour, d);
    forall k | 0 <= k < 16
      ensures Fits(c[k], d) <==> k < 15 || d == 30
    {
      assert c[k] in Candidates(OpenHour, 0, d);
      FitsBelow480(c[k], d);
      TwoPerHourEnd(k, d);
    }
    var kept := if d == 30 then c else c[..15];
    forall x | x in kept ensures Fits(x, d) {
      var k :| 0 <= k < |kept| && kept[k] == x;
      assert x == c[k];
    }
    KeepFittingAll(kept, d);
    if d != 30 {
      assert c == kept + [c[15]];
      KeepFittingAppend(kept, [c[15]], d);
    }
  }

  /**
   * A service of 30 to 59 minutes (a hair cut, a manicure) is offered on the
   * hour and `d` minutes past, from 9:00; 16:00 plus `d` is offered only for
   * `d` = 30, when it ends exactly at 17:00.  So 30 minutes gives the sixteen
   * half hours from 9:00 to 16:30.
   */
  lemma TwoPerHourSlots(d: int)
    requires 30 <= d < 60
    ensures |SlotStarts(d)| == if d == 30 then 16 else 15
    ensures forall i :: 0 <= i < |SlotStarts(d)| ==>
              SlotStarts(d)[i] == (OpenHour + i / 2) * 60 + (if i % 2 == 0 then 0 else d)
  {
    TwoPerHourKept(d);
    TwoPerHourIndex(OpenHour, d);
  }

  lemma {:induction false} KeepFittingAppend(xs: seq<int>, ys: seq<int>, d: int)
    ensures KeepFitting(xs + ys, d) == KeepFitting(xs, d) + KeepFitting(ys, d)
  {
    if xs != [] {
      KeepFittingAppend(xs[1..], ys, d);
      assert (xs + ys)[1..] == xs[1..] + ys;
      assert (xs + ys)[0] == xs[0];
    } else {
      assert xs + ys == ys;
    }
  }

  /**
   * As written, a service of eight hours or more (up to 25 hours) is offered
   * at 16:00: its end falls on the next day, whose clock reading of at most
   * 17:00 passes the test, although the window runs past closing time.
   */
  lemma LongServiceOfferedAtFour(d: int)
    requires 8 * 60 <= d <= 25 * 60
    ensures 16 * 60 in SlotStarts(d)
    ensures 16 * 60 + d > CloseHour * 60
    ensures 16 * 60 !in IntendedStarts(d)
  {
    var x := 16 * 60;
    DivModUnique(x + d, MinutesPerDay, 1, x + d - MinutesPerDay);
    DivModUnique(x, 60, 16, 0);
    assert OnGrid(x, d);
    assert Fits(x, d);
    SlotStartsExactly(d);
    IntendedStartsEndByClose(d);
  }
}
