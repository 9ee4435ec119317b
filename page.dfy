/** The state of the greeting page and the handlers that change it: the
    passcode gate, the cursor trail, the photo carousel and the counter.
    Every timer and event callback is an explicit method; the time they read
    is a parameter. */
module Page {
  import opened Calendar
  import opened Trail
  import opened Gallery

  /** The passcode that unlocks the page. */
  const CorrectPasscode := "050921"

  /** The passcode input accepts at most this many characters. */
  const MaxPasscodeLength := 6

  class MonthsaryPage {
    var trail: seq<TrailSample>
    var nextTrailId: nat
    var imageIndex: int
    var authenticated: bool
    var passcode: string
    var wrongPasscode: bool
    var timeData: Duration

    /** Every sample ever added to the trail, in order; sample i got id i. */
    ghost var pushed: seq<TrailSample>

    ghost predicate Valid()
      reads this
    {
      && |trail| <= MaxLength
      && IdsIncreasing(trail)
      && nextTrailId == |pushed|
      && (forall i :: 0 <= i < |pushed| ==> pushed[i].id == i)
      && (forall k :: 0 <= k < |trail| ==> 0 <= trail[k].id < |pushed| && pushed[trail[k].id] == trail[k])
      && InRange(imageIndex)
      && |passcode| <= MaxPasscodeLength
    }

    /** The page as first rendered: locked, nothing typed, no trail, the
        first photo and a zero counter. */
    constructor ()
      ensures Valid()
      ensures trail == [] && nextTrailId == 0 && pushed == []
      ensures imageIndex == 0
      ensures !authenticated && passcode == "" && !wrongPasscode
      ensures timeData == Duration(0, 0, 0, 0, 0, 0)
    {
      trail := [];
      nextTrailId := 0;
      imageIndex := 0;
      authenticated := false;
      passcode := "";
      wrongPasscode := false;
      timeData := Duration(0, 0, 0, 0, 0, 0);
      pushed := [];
    }

    /** Typing into the passcode field (only shown while locked). */
    method SetPasscode(value: string)
      requires Valid() && |value| <= MaxPasscodeLength
      modifies this`passcode
      ensures Valid()
      ensures passcode == if authenticated then old(passcode) else value
    {
      if !authenticated {
        passcode := value;
      }
    }

    /** Submitting the passcode form (only shown while locked): the right
        passcode unlocks the page for good; any other marks the attempt
        wrong and clears the field. */
    method SubmitPasscode()
      requires Valid()
      modifies this`authenticated, this`wrongPasscode, this`passcode
      ensures Valid()
      ensures authenticated == (old(authenticated) || old(passcode) == CorrectPasscode)
      ensures old(authenticated) || old(passcode) == CorrectPasscode
              ==> passcode == old(passcode) && wrongPasscode == old(wrongPasscode)
      ensures !old(authenticated) && old(passcode) != CorrectPasscode
              ==> passcode == "" && wrongPasscode
    {
      if !authenticated {
        if passcode == CorrectPasscode {
          authenticated := true;
        } else {
          wrongPasscode := true;
          passcode := "";
        }
      }
    }

    /** The delayed timer after a wrong attempt clears the wrong flag. */
    method ResetWrongPasscode()
      requires Valid()
      modifies this`wrongPasscode
      ensures Valid() && !wrongPasscode
    {
      wrongPasscode := false;
    }

    /** A pointer move while unlocked adds a sample with the next id,
        keeping the previous six entries; while locked nothing listens. */
    method MouseMove(x: int, y: int, now: int)
      requires Valid()
      modifies this`trail, this`nextTrailId, this`pushed
      ensures Valid()
      ensures !authenticated ==> trail == old(trail) && nextTrailId == old(nextTrailId) && pushed == old(pushed)
      ensures authenticated ==>
                var sample := TrailSample(old(nextTrailId), x, y, now);
                && trail == Push(old(trail), sample)
                && nextTrailId == old(nextTrailId) + 1
                && pushed == old(pushed) + [sample]
    {
      if authenticated {
        var sample := TrailSample(nextTrailId, x, y, now);
        ghost var before := trail;
        trail := Push(trail, sample);
        nextTrailId := nextTrailId + 1;
        pushed := pushed + [sample];
        forall k | 0 <= k < |trail|
          ensures trail[k] == sample || trail[k] in before
        {
          if k < |trail| - 1 {
            assert trail[k] == before[|before| - (|trail| - 1) + k];
          }
        }
      }
    }

    /** The cleanup tick while unlocked keeps the samples under three
        seconds old, in order; the id counter is untouched. */
    method CleanupTrail(now: int)
      requires Valid()
      modifies this`trail
      ensures Valid()
      ensures trail == if authenticated then Fresh(old(trail), now) else old(trail)
    {
      if authenticated {
        ghost var before := trail;
        FreshKeepsOrder(trail, now);
        trail := Fresh(trail, now);
        forall k | 0 <= k < |trail|
          ensures trail[k] in before
        {
          FreshMembers(before, now, trail[k]);
        }
      }
    }

    /** The carousel tick while unlocked shows the next photo. */
    method RotateGallery()
      requires Valid()
      modifies this`imageIndex
      ensures Valid()
      ensures imageIndex == if authenticated then Advance(old(imageIndex)) else old(imageIndex)
    {
      if authenticated {
        imageIndex := Advance(imageIndex);
      }
    }

    /** Clicking the dot of a photo (only shown while unlocked) shows that
        photo. */
    method SelectPhoto(index: int)
      requires Valid() && InRange(index)
      modifies this`imageIndex
      ensures Valid()
      ensures imageIndex == if authenticated then index else old(imageIndex)
    {
      if authenticated {
        imageIndex := index;
      }
    }

    /** The counter tick while unlocked recomputes the time since the start
        date from the current local date and time. */
    method ClockTick(now: DateTime)
      requires Valid()
      modifies this`timeData
      ensures Valid()
      ensures timeData == if authenticated then TimeSinceStart(now) else old(timeData)
    {
      if authenticated {
        timeData := TimeSinceStart(now);
      }
    }
  }

  /** Before the passcode is entered, pointer moves and carousel ticks
      change nothing. */
  method LockedSession()
  {
    var page := new MonthsaryPage();
    page.MouseMove(10, 20, 0);
    page.RotateGallery();
    assert page.trail == [] && page.imageIndex == 0;
  }

  /** A wrong attempt is marked wrong and cleared until its timer fires;
      the right passcode then unlocks the page. */
  method GateSession()
  {
    var page := new MonthsaryPage();
    page.SetPasscode("1234");
    assert "1234" != CorrectPasscode by { assert "1234"[0] != CorrectPasscode[0]; }
    page.SubmitPasscode();
    assert !page.authenticated && page.wrongPasscode && page.passcode == "";
    page.ResetWrongPasscode();
    assert !page.authenticated && !page.wrongPasscode;
    page.SetPasscode(CorrectPasscode);
    page.SubmitPasscode();
    assert page.authenticated;
  }

  /** No later attempt locks an unlocked page. */
  method RelockAttempt(page: MonthsaryPage)
    requires page.Valid() && page.authenticated
    modifies page
  {
    page.SetPasscode("000000");
    page.SubmitPasscode();
    assert page.authenticated;
  }

  /** Once unlocked, a sample 3100 ms old is gone after a cleanup and the
      carousel moves on. */
  method UnlockedSession(page: MonthsaryPage)
    requires page.Valid() && page.authenticated && page.trail == [] && page.imageIndex == 0
    modifies page
  {
    var sample := TrailSample(page.nextTrailId, 10, 20, 1000);
    page.MouseMove(10, 20, 1000);
    assert page.trail == [sample] by { assert [] + [sample] == [sample]; }
    page.CleanupTrail(4100);
    assert page.trail == [] by { assert !IsFresh(sample, 4100); }
    page.RotateGallery();
    assert page.imageIndex == 1;
  }
}
