/** The packages of a LIVO run as the frames the propagation works on. */
module MotionFrames {
  import opened SensorSync
  import opened SensorBatches
  import Motion = ImuProcessing

  lemma {:induction false} SortedHead(imus: seq<Imu>)
    requires Sorted(imus)
    ensures forall i | 0 <= i < |imus| :: imus[0].stamp <= imus[i].stamp
  {
    if |imus| > 1 {
      SortedHead(imus[1..]);
      forall i | 0 < i < |imus| ensures imus[0].stamp <= imus[i].stamp {
        assert imus[1..][i - 1] == imus[i];
      }
    }
  }

  lemma {:induction false} SortedPairs(imus: seq<Imu>, i: nat, j: nat)
    requires Sorted(imus) && i < j < |imus|
    ensures imus[i].stamp <= imus[j].stamp
  {
    if i == 0 {
      SortedHead(imus);
    } else {
      assert Sorted(imus[1..]);
      SortedPairs(imus[1..], i - 1, j - 1);
    }
  }

  lemma {:induction false} SortedTake(imus: seq<Imu>, k: nat)
    requires Sorted(imus) && k <= |imus|
    ensures Sorted(imus[..k])
  {
    if k > 1 {
      SortedTake(imus[1..], k - 1);
      assert imus[..k][1..] == imus[1..][..k - 1];
    }
  }

  lemma {:induction false} AfterMembers(imus: seq<Imu>, t: real)
    ensures forall x | x in After(imus, t) :: x in imus
  {
    if imus != [] {
      AfterMembers(imus[1..], t);
    }
  }

  lemma {:induction false} SortedAfter(imus: seq<Imu>, t: real)
    requires Sorted(imus)
    ensures Sorted(After(imus, t))
  {
    if imus != [] {
      var rest := After(imus[1..], t);
      SortedAfter(imus[1..], t);
      if imus[0].stamp > t {
        assert ([imus[0]] + rest)[1..] == rest;
        if rest != [] {
          AfterMembers(imus[1..], t);
          SortedHead(imus);
          assert rest[0] in imus[1..];
        }
      } else {
        assert [] + rest == rest;
      }
    }
  }

  /** A package's samples lie within the frame, in order; those handed out before do not reach
      into it. */
  lemma PackageWithinFrame(r: Run, exposure: real)
    requires Orderly(r.state) && Batched(r) && Cuts(r.state, exposure)
    ensures var batch, lio := BatchOf(r.state, exposure), r.state.imageTimes[0] + exposure;
            && AllAfter(batch, Base(r.state)) && AllUpto(batch, lio) && Sorted(batch)
            && AllUpto(r.batches, Base(r.state)) && Base(r.state) < lio
  {
    BaseBatched(r);
    BatchWithin(r.state.imus, Base(r.state), r.state.imageTimes[0] + exposure);
  }

  lemma BatchWithin(imus: seq<Imu>, last: real, lio: real)
    requires Sorted(imus) && last <= lio
    ensures var batch := After(imus[..Reached(imus, lio)], last);
            AllAfter(batch, last) && AllUpto(batch, lio) && Sorted(batch)
  {
    var k := Reached(imus, lio);
    FrontAndRest(imus, last, lio);
    SortedTake(imus, k);
    SortedAfter(imus[..k], last);
    AfterWithin(imus[..k], last, lio);
  }

  /** The samples as the propagation sees them carry the stamps of the package. */
  ghost predicate SameStamps(batch: seq<Imu>, samples: seq<Motion.Imu>) {
    |samples| == |batch| && forall i | 0 <= i < |batch| :: samples[i].stamp == batch[i].stamp
  }

  lemma FormsFrame(last: Motion.Imu, samples: seq<Motion.Imu>, batch: seq<Imu>, beg: real, end: real)
    requires AllAfter(batch, beg) && AllUpto(batch, end) && Sorted(batch) && SameStamps(batch, samples)
    requires last.stamp <= beg < end
    ensures Motion.FrameSamples(last, samples, beg, end)
  {
    forall i, j | 0 <= i < j < |samples| ensures samples[i].stamp <= samples[j].stamp {
      SortedPairs(batch, i, j);
    }
  }

  /** In every run every package is a frame of the propagation, from the previous update to the
      image, with the last sample handed out before it carried over: the propagation then covers
      it as StepsCoverFrame says. */
  lemma PackageFormsFrame(events: seq<Event>, exposure: real, r: Run, last: Motion.Imu, samples: seq<Motion.Imu>)
    requires Reaches(events, exposure, r) && Safe(r.state) && Cuts(r.state, exposure)
    requires SameStamps(BatchOf(r.state, exposure), samples)
    requires if r.batches != [] then last.stamp == r.batches[|r.batches| - 1].stamp else last.stamp <= Base(r.state)
    ensures Motion.FrameSamples(last, samples, Base(r.state), r.state.imageTimes[0] + exposure)
  {
    RunBatched(events, exposure, r);
    PackageWithinFrame(r, exposure);
    FormsFrame(last, samples, BatchOf(r.state, exposure), Base(r.state), r.state.imageTimes[0] + exposure);
  }
}
