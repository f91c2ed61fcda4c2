/** The two-phase delete with a grace period (pkg/_internal/gracePeriod/gracePeriod.go). Times are in
    nanoseconds; the annotation holds whole seconds. */
module Grace {
  const SECOND := 1_000_000_000
  const GRACE := 600 * SECOND

  /** `time.Time.Unix` */
  function Unix(t: int): int {
    t / SECOND
  }

  /** The grace annotation of an object. */
  datatype Annotation = NoAnnotation | BadValue | DeleteAt(seconds: int)

  /** The annotation of an object found at this time. */
  function StampAt(found: int): Annotation {
    DeleteAt(Unix(found + GRACE))
  }

  datatype Decision = DeleteNow | Stamp(seconds: int) | Wait

  /** What GracefulDelete does with an object, given the up to four times it reads the clock. */
  function Decide(grace: Annotation, ignoreGrace: bool, t0: int, t1: int, t2: int, t3: int): Decision {
    if ignoreGrace || t0 + GRACE < t1 || t0 + GRACE == t2 then DeleteNow
    else
      match grace
      case NoAnnotation => Stamp(Unix(t0 + GRACE))
      case BadValue => Stamp(Unix(t0 + GRACE))
      case DeleteAt(seconds) => if seconds <= Unix(t3) then DeleteNow else Wait
  }

  /** Calls in which this much time passes up to the last comparison with the new deadline never delete
      an object that has no valid annotation, if and only if it is less than the grace period. */
  lemma UnannouncedKeptExactly(grace: Annotation, passed: nat)
    requires !grace.DeleteAt?
    ensures (forall t0, t1, t2, t3 | t0 <= t1 <= t2 <= t3 && t2 - t0 == passed ::
              Decide(grace, false, t0, t1, t2, t3) != DeleteNow) <==>
            passed < GRACE
  {
    if passed >= GRACE {
      var stalled := if passed == GRACE then 0 else passed;
      assert Decide(grace, false, 0, stalled, passed, passed) == DeleteNow;
    }
  }

  /** An example: the object is read only when the grace period is over, and goes unannounced. */
  lemma DeletedUnannounced()
    ensures Decide(NoAnnotation, false, 0, GRACE + 1, GRACE + 2, GRACE + 3) == DeleteNow
  {}

  /** The annotation drops the fraction of a second, so removal can come up to a second early: found at
      0.9 s, the object may go at 600.0 s. */
  lemma RemovedEarly()
    ensures var found, later := 900_000_000, 600 * SECOND;
            && Decide(NoAnnotation, false, found, found, found, found) == Stamp(Unix(found + GRACE))
            && Decide(StampAt(found), false, later, later, later, later) == DeleteNow
            && later - found < GRACE
  {
    assert Unix(900_000_000 + GRACE) == 600;
  }

  /** A later call, itself shorter than the grace period, never removes the object early if and only if
      it was found on a whole second. */
  lemma NeverEarlyExactly(found: int)
    ensures (forall u0, u1, u2, u3 | found <= u0 <= u1 <= u2 <= u3 < u0 + GRACE &&
               Decide(StampAt(found), false, u0, u1, u2, u3) == DeleteNow :: u3 - found >= GRACE) <==>
            found % SECOND == 0
  {
    var s := Unix(found);
    assert found == s * SECOND + found % SECOND;
    assert Unix(found + GRACE) == s + 600;
    if found % SECOND != 0 {
      var u := (s + 600) * SECOND;
      assert Unix(u) == s + 600;
      assert Decide(StampAt(found), false, u, u, u, u) == DeleteNow;
    } else {
      forall u3 | Unix(found + GRACE) <= Unix(u3) ensures u3 - found >= GRACE {
        assert u3 >= Unix(u3) * SECOND;
      }
    }
  }

  /** In whole seconds, and up to less than one second, the grace period is always granted. */
  lemma GraceGranted(found: int, removed: int)
    requires Unix(found + GRACE) <= Unix(removed)
    ensures Unix(removed) - Unix(found) >= 600 && removed - found > GRACE - SECOND
  {
    assert Unix(found + GRACE) == Unix(found) + 600;
    assert removed >= Unix(removed) * SECOND;
    assert found < (Unix(found) + 1) * SECOND;
  }
}
