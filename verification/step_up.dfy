/** Step-up verification: the session writes of controller/secure_verification.go and
    controller/passkey.go, and of login and logout in controller/user.go. The session travels in a signed cookie, so a request may present any
    session that an earlier response carried. Each handler is one step on the session its request
    presents; the clock readings, the outcome of each foreign check and of each save are inputs. */
module StepUp {
  import opened Wrappers

  const SECURE_VERIFICATION_TIMEOUT := 300
  const PASSKEY_READY_TIMEOUT := 60
  const METHOD_2FA := "2fa"
  const METHOD_PASSKEY := "passkey"

  /** The value under secure_passkey_ready_at, which another writer may have left malformed. */
  datatype Marker = Absent | Ready(at: int) | Malformed

  datatype Session = Session(user: Option<int>, ready: Marker, verifiedAt: Option<int>, verifiedMethod: Option<string>)

  const NEW_SESSION := Session(None, Absent, None, None)

  /** A verification may come with an access token, which speaks for a user where the session has
      none. */
  datatype Event =
    | Login(id: int, saved: bool)
    | Logout(saved: bool)
    | Finish(now: int, passed: bool, saved: bool)
    | Verify(kind: string, token: Option<int>, has2FA: bool, hasPasskey: bool, codeGiven: bool, codeValid: bool,
             checkedAt: int, setAt: int, consumeSaved: bool, setSaved: bool)
    | Require(kind: string, now: int, saved: bool)
    | Clear(now: int, saved: bool)

  // ----- The session as a function of each step -----

  /** consumePasskeyReady: the session saved and whether the marker was accepted. */
  function Consume(s: Session, now: int, saved: bool): (Session, bool) {
    if s.ready.Absent? then (s, false)
    else if !saved then (s, false)
    else (s.(ready := Absent), s.ready.Ready? && now - s.ready.at < PASSKEY_READY_TIMEOUT)
  }

  function SetVerified(s: Session, kind: string, now: int, saved: bool): (Session, bool) {
    if saved then (Session(s.user, Absent, Some(now), Some(kind)), true) else (s, false)
  }

  /** The user for whom a request is served. */
  function Actor(s: Session, token: Option<int>): Option<int> {
    if s.user.Some? then s.user else token
  }

  function VerifyStep(s: Session, e: Event): (Session, bool)
    requires e.Verify?
  {
    if Actor(s, e.token).None? then (s, false)
    else if !e.has2FA && !e.hasPasskey then (s, false)
    else if e.kind == METHOD_2FA then
      if !e.has2FA || !e.codeGiven || !e.codeValid then (s, false) else SetVerified(s, e.kind, e.setAt, e.setSaved)
    else if e.kind == METHOD_PASSKEY then
      if !e.hasPasskey then (s, false)
      else
        var (s', accepted) := Consume(s, e.checkedAt, e.consumeSaved);
        if accepted then SetVerified(s', e.kind, e.setAt, e.setSaved) else (s', false)
    else (s, false)
  }

  function Expired(s: Session, now: int): bool {
    s.verifiedAt.None? || now - s.verifiedAt.value >= SECURE_VERIFICATION_TIMEOUT
  }

  function Step(s: Session, e: Event): (Session, bool) {
    match e
    case Login(id, saved) => (if saved then s.(user := Some(id)) else s, saved)
    case Logout(saved) => (if saved then NEW_SESSION else s, saved)
    case Finish(now, passed, saved) =>
      if s.user.Some? && passed && saved then (Session(s.user, Ready(now), None, None), true) else (s, false)
    case Verify(_, _, _, _, _, _, _, _, _, _) => VerifyStep(s, e)
    case Require(kind, now, saved) =>
      if s.user.None? then (s, false)
      else if Expired(s, now) then (if saved then s.(verifiedAt := None, verifiedMethod := None) else s, false)
      else (s, s.verifiedMethod == Some(kind))
    case Clear(_, saved) => (if saved then s.(verifiedAt := None, verifiedMethod := None) else s, false)
  }

  /** What a verification must be given: a user, a method the user has, and a valid code or a fresh
      ready marker; and the session is saved. */
  predicate Proves(s: Session, e: Event)
    requires e.Verify?
  {
    && (s.user.Some? || e.token.Some?) && e.setSaved
    && ((e.kind == "2fa" && e.has2FA && e.codeGiven && e.codeValid)
        || (e.kind == "passkey" && e.hasPasskey && e.consumeSaved && s.ready.Ready? && e.checkedAt - s.ready.at < 60))
  }

  // ----- The handlers -----

  /** The session of one request: what its cookie presented, then what was last saved into the
      response. A handler works on a copy and saves it, or fails to. */
  class SessionStore {
    var session: Session

    constructor (presented: Session)
      ensures session == presented
    {
      session := presented;
    }

    /** setupLogin: the other keys of the session stay. */
    method SetupLogin(id: int, saved: bool) returns (ok: bool)
      modifies this
      ensures (session, ok) == Step(old(session), Login(id, saved))
    {
      var working := session;
      working := working.(user := Some(id));
      ok := Save(working, saved);
    }

    method ClearAll(saved: bool) returns (ok: bool)
      modifies this
      ensures (session, ok) == Step(old(session), Logout(saved))
    {
      ok := Save(NEW_SESSION, saved);
    }

    method PasskeyVerifyFinish(now: int, passed: bool, saved: bool) returns (ok: bool)
      modifies this
      ensures (session, ok) == Step(old(session), Finish(now, passed, saved))
    {
      var working := session;
      if working.user.None? {
        return false;
      }
      if !passed {
        return false;
      }
      working := working.(ready := Ready(now));
      working := working.(verifiedAt := None);
      working := working.(verifiedMethod := None);
      ok := Save(working, saved);
    }

    method Save(working: Session, saved: bool) returns (ok: bool)
      modifies this
      ensures ok == saved && session == if saved then working else old(session)
    {
      if saved {
        session := working;
      }
      ok := saved;
    }

    method ConsumePasskeyReady(now: int, saved: bool) returns (accepted: bool)
      modifies this
      ensures (session, accepted) == Consume(old(session), now, saved)
    {
      var working := session;
      if working.ready.Absent? {
        return false;
      }
      var readyAt := working.ready;
      if !readyAt.Ready? {
        var ok := Save(working.(ready := Absent), saved);
        return false;
      }
      var ok := Save(working.(ready := Absent), saved);
      if !ok {
        return false;
      }
      if now - readyAt.at >= PASSKEY_READY_TIMEOUT {
        return false;
      }
      accepted := true;
    }

    method SetSecureVerificationSession(kind: string, now: int, saved: bool) returns (ok: bool)
      modifies this
      ensures (session, ok) == SetVerified(old(session), kind, now, saved)
    {
      var working := session;
      working := working.(ready := Absent);
      working := working.(verifiedAt := Some(now));
      working := working.(verifiedMethod := Some(kind));
      ok := Save(working, saved);
    }

    method UniversalVerify(e: Event) returns (ok: bool)
      requires e.Verify?
      modifies this
      ensures (session, ok) == Step(old(session), e)
      ensures ok <==> Proves(old(session), e)
      ensures ok ==> session == Session(old(session).user, Absent, Some(e.setAt), Some(e.kind))
    {
      if session.user.None? && e.token.None? {
        return false;
      }
      if !e.has2FA && !e.hasPasskey {
        return false;
      }
      var verified := false;
      if e.kind == METHOD_2FA {
        if !e.has2FA {
          return false;
        }
        if !e.codeGiven {
          return false;
        }
        verified := e.codeValid;
      } else if e.kind == METHOD_PASSKEY {
        if !e.hasPasskey {
          return false;
        }
        verified := ConsumePasskeyReady(e.checkedAt, e.consumeSaved);
        if !verified {
          return false;
        }
      } else {
        return false;
      }
      if !verified {
        return false;
      }
      ok := SetSecureVerificationSession(e.kind, e.setAt, e.setSaved);
    }

    method RequireSecureVerificationMethod(kind: string, now: int, saved: bool) returns (ok: bool)
      modifies this
      ensures (session, ok) == Step(old(session), Require(kind, now, saved))
    {
      var working := session;
      if working.user.None? {
        return false;
      }
      if working.verifiedAt.None? || now - working.verifiedAt.value >= SECURE_VERIFICATION_TIMEOUT {
        working := working.(verifiedAt := None);
        working := working.(verifiedMethod := None);
        var ignored := Save(working, saved);
        return false;
      }
      if working.verifiedMethod.None? || working.verifiedMethod.value != kind {
        return false;
      }
      ok := true;
    }
  }

  // ----- Runs -----

  /** A request presents the session that the response before the `presents`-th request carried,
      or a new one. */
  datatype Request = Request(presents: nat, e: Event)

  /** A request can only present a session that was issued before it. */
  predicate Run(reqs: seq<Request>) {
    forall k :: 0 <= k < |reqs| ==> reqs[k].presents <= k
  }

  /** The c-th session issued: 0 is the new one, n + 1 the one the client holds after request n. */
  function Issued(reqs: seq<Request>, c: nat): Session
    requires Run(reqs) && c <= |reqs|
    decreases c, 0
  {
    if c == 0 then NEW_SESSION else Outcome(reqs, c - 1).0
  }

  /** The session and the result of a request. */
  function Outcome(reqs: seq<Request>, k: nat): (Session, bool)
    requires Run(reqs) && k < |reqs|
    decreases k, 1
  {
    Step(Issued(reqs, reqs[k].presents), reqs[k].e)
  }

  /** The user of the session that a request presents. */
  function UserAt(reqs: seq<Request>, k: nat): Option<int>
    requires Run(reqs) && k < |reqs|
  {
    Issued(reqs, reqs[k].presents).user
  }

  predicate Succeeds(reqs: seq<Request>, k: nat)
    requires Run(reqs)
  {
    k < |reqs| && Outcome(reqs, k).1
  }

  predicate Verified(reqs: seq<Request>, k: nat, kind: string)
    requires Run(reqs)
  {
    Succeeds(reqs, k) && reqs[k].e.Verify? && reqs[k].e.kind == kind
  }

  predicate Finished(reqs: seq<Request>, k: nat)
    requires Run(reqs)
  {
    Succeeds(reqs, k) && reqs[k].e.Finish?
  }

  /** A successful verification of a method was given exactly what that method asks for: a user with
      2FA a valid code, a user with a passkey a marker less than 60 s old. No other method is
      ever verified. */
  lemma VerifiedExactly(reqs: seq<Request>, j: nat, kind: string)
    requires Run(reqs) && j < |reqs|
    ensures var e := reqs[j].e;
            Verified(reqs, j, kind) <==> e.Verify? && e.kind == kind && Proves(Issued(reqs, reqs[j].presents), e)
    ensures Verified(reqs, j, kind) ==> kind in {METHOD_2FA, METHOD_PASSKEY}
  {
  }

  /** A finish succeeds exactly for a logged-in user whose assertion passed, when the session is
      saved. */
  lemma FinishedExactly(reqs: seq<Request>, i: nat)
    requires Run(reqs) && i < |reqs|
    ensures var e := reqs[i].e;
            Finished(reqs, i) <==> e.Finish? && e.passed && e.saved && Issued(reqs, reqs[i].presents).user.Some?
  {
  }

  /** The finish whose ready marker the c-th session carries. */
  function MarkerOf(reqs: seq<Request>, c: nat): Option<nat>
    requires Run(reqs) && c <= |reqs|
  {
    if c == 0 || Issued(reqs, c).ready.Absent? then None
    else if Finished(reqs, c - 1) then Some(c - 1)
    else MarkerOf(reqs, reqs[c - 1].presents)
  }

  /** The finish that a passkey verification rests on. */
  function FinishOf(reqs: seq<Request>, j: nat): Option<nat>
    requires Run(reqs) && j < |reqs|
  {
    MarkerOf(reqs, reqs[j].presents)
  }

  /** A ready marker is always the mark of a successful WebAuthn finish, with its time, and stands in
      the session of a user. */
  lemma {:induction false} MarkerIsFinish(reqs: seq<Request>, c: nat)
    requires Run(reqs) && c <= |reqs|
    ensures MarkerOf(reqs, c).Some? <==> !Issued(reqs, c).ready.Absent?
    ensures MarkerOf(reqs, c).Some? ==>
              var i := MarkerOf(reqs, c).value;
              && i < c && Finished(reqs, i) && Issued(reqs, c).ready == Ready(reqs[i].e.now)
              && Issued(reqs, c).user.Some?
  {
    if c > 0 && !Finished(reqs, c - 1) {
      MarkerIsFinish(reqs, reqs[c - 1].presents);
    }
  }

  /** The request that made the verification which the c-th session carries. */
  function OriginOf(reqs: seq<Request>, c: nat): Option<nat>
    requires Run(reqs) && c <= |reqs|
  {
    if c == 0 || Issued(reqs, c).verifiedAt.None? then None
    else if reqs[c - 1].e.Verify? && Succeeds(reqs, c - 1) then Some(c - 1)
    else OriginOf(reqs, reqs[c - 1].presents)
  }

  /** A recorded verification was made by a successful verification of that method. */
  lemma {:induction false} OriginIsVerification(reqs: seq<Request>, c: nat)
    requires Run(reqs) && c <= |reqs|
    ensures OriginOf(reqs, c).Some? <==> Issued(reqs, c).verifiedAt.Some?
    ensures OriginOf(reqs, c).Some? ==>
              var j := OriginOf(reqs, c).value;
              && j < c && Succeeds(reqs, j) && reqs[j].e.Verify?
              && Issued(reqs, c).verifiedAt == Some(reqs[j].e.setAt) && Issued(reqs, c).verifiedMethod == Some(reqs[j].e.kind)
  {
    if c > 0 && !(reqs[c - 1].e.Verify? && Succeeds(reqs, c - 1)) {
      OriginIsVerification(reqs, reqs[c - 1].presents);
    }
  }

  /** A passkey verification rests on a successful finish less than 60 s old. */
  lemma PasskeyRestsOnFinish(reqs: seq<Request>, j: nat)
    requires Run(reqs) && Verified(reqs, j, METHOD_PASSKEY)
    ensures FinishOf(reqs, j).Some?
    ensures var i := FinishOf(reqs, j).value;
            i < j && Finished(reqs, i) && reqs[j].e.checkedAt - reqs[i].e.now < PASSKEY_READY_TIMEOUT
  {
    MarkerIsFinish(reqs, reqs[j].presents);
  }

  /** Whichever issued sessions are presented: when a required method is accepted at time t, that
      method was verified less than 300 s before; a passkey verification rested on a WebAuthn
      finish less than 60 s before its check, so the finish is at most 358 s old plus the time
      between the check and the write. */
  lemma RequireIsJustified(reqs: seq<Request>, n: nat)
    requires Run(reqs) && Succeeds(reqs, n) && reqs[n].e.Require?
    ensures exists j: nat :: j < n && Verified(reqs, j, reqs[n].e.kind)
                        && reqs[n].e.now - reqs[j].e.setAt < SECURE_VERIFICATION_TIMEOUT
                        && (if reqs[n].e.kind == METHOD_2FA then reqs[j].e.has2FA && reqs[j].e.codeGiven && reqs[j].e.codeValid
                            else reqs[n].e.kind == METHOD_PASSKEY && reqs[j].e.hasPasskey)
    ensures reqs[n].e.kind == METHOD_PASSKEY ==>
              exists i: nat, j: nat :: i < j < n && Finished(reqs, i) && reqs[i].e.passed && Verified(reqs, j, METHOD_PASSKEY)
                && FinishOf(reqs, j) == Some(i)
                && reqs[n].e.now - reqs[j].e.setAt < SECURE_VERIFICATION_TIMEOUT
                && reqs[j].e.checkedAt - reqs[i].e.now < PASSKEY_READY_TIMEOUT
                && reqs[n].e.now - reqs[i].e.now <= 358 + (reqs[j].e.setAt - reqs[j].e.checkedAt)
  {
    OriginIsVerification(reqs, reqs[n].presents);
    var j := OriginOf(reqs, reqs[n].presents).value;
    VerifiedExactly(reqs, j, reqs[n].e.kind);
    if reqs[n].e.kind == METHOD_PASSKEY {
      PasskeyRestsOnFinish(reqs, j);
      var i := FinishOf(reqs, j).value;
      FinishedExactly(reqs, i);
      assert i < j < n && Finished(reqs, i) && FinishOf(reqs, j) == Some(i);
    }
  }

  // ----- What ends a verification -----

  lemma StepEndsVerification(s: Session, e: Event)
    requires s.verifiedAt.Some?
    ensures Step(s, e).0.verifiedAt.None? <==>
            || (e.Finish? && Step(s, e).1)
            || (e.Logout? && e.saved)
            || (e.Clear? && e.saved)
            || (e.Require? && e.saved && s.user.Some? && e.now - s.verifiedAt.value >= 300)
  {
  }

  lemma StepEndsMarker(s: Session, e: Event)
    requires s.ready.Ready? && s.user.Some?
    ensures Step(s, e).0.ready.Absent? <==>
            || (e.Logout? && e.saved)
            || (e.Verify? && Step(s, e).1)
            || (e.Verify? && e.kind == METHOD_PASSKEY && e.hasPasskey && e.consumeSaved)
  {
    MethodsDiffer();
  }

  /** A recorded verification goes away exactly by a saved logout, a successful finish, a saved
      clearing, or a required check that finds it expired and is saved. */
  lemma VerificationEnds(reqs: seq<Request>, k: nat, j: nat)
    requires Run(reqs) && k < |reqs| && j < |reqs| && reqs[j].e.Verify? && OriginOf(reqs, reqs[k].presents) == Some(j)
    ensures var e := reqs[k].e;
            OriginOf(reqs, k + 1).None? <==>
            || Finished(reqs, k)
            || (e.Logout? && e.saved)
            || (e.Clear? && e.saved)
            || (e.Require? && e.saved && UserAt(reqs, k).Some? && e.now - reqs[j].e.setAt >= 300)
  {
    var s := Issued(reqs, reqs[k].presents);
    OriginIsVerification(reqs, reqs[k].presents);
    StepEndsVerification(s, reqs[k].e);
    OriginIsVerification(reqs, k + 1);
    assert Issued(reqs, k + 1) == Step(s, reqs[k].e).0;
  }

  /** A ready marker goes away exactly by a saved logout, a verification, or a passkey verification
      that takes it, accepted or not, and is saved. */
  lemma MarkerEnds(reqs: seq<Request>, k: nat)
    requires Run(reqs) && k < |reqs| && MarkerOf(reqs, reqs[k].presents).Some?
    ensures var e := reqs[k].e;
            MarkerOf(reqs, k + 1).None? <==>
            || (e.Logout? && e.saved)
            || (e.Verify? && Succeeds(reqs, k))
            || (e.Verify? && e.kind == METHOD_PASSKEY && e.hasPasskey && e.consumeSaved)
  {
    MarkerIsFinish(reqs, reqs[k].presents);
    MarkerIsFinish(reqs, k + 1);
    StepEndsMarker(Issued(reqs, reqs[k].presents), reqs[k].e);
  }

  /** Only a saved login or logout changes the user of a session. */
  lemma UserChanges(reqs: seq<Request>, k: nat)
    requires Run(reqs) && k < |reqs|
    ensures var e := reqs[k].e;
            Issued(reqs, k + 1).user ==
            if e.Login? && e.saved then Some(e.id) else if e.Logout? && e.saved then None else UserAt(reqs, k)
  {
  }

  /** A request whose saves fail leaves the session as it was presented. */
  lemma NothingSaved(reqs: seq<Request>, k: nat)
    requires Run(reqs) && k < |reqs|
    requires if reqs[k].e.Verify? then !reqs[k].e.consumeSaved && !reqs[k].e.setSaved else !reqs[k].e.saved
    ensures Issued(reqs, k + 1) == Issued(reqs, reqs[k].presents)
  {
  }

  // ----- How often a finish is used -----

  function PasskeyVerify(at: int): Event {
    Verify(METHOD_PASSKEY, None, false, true, false, false, at, at, true, true)
  }

  lemma MethodsDiffer()
    ensures METHOD_PASSKEY != METHOD_2FA
  {
    assert |METHOD_PASSKEY| == 7 && |METHOD_2FA| == 3;
  }

  /** One finish, and the session it issued presented twice: both verifications are accepted. */
  lemma FinishIsReplayed()
    ensures var reqs := [Request(0, Login(1, true)), Request(1, Finish(0, true, true)),
                         Request(2, PasskeyVerify(5)), Request(2, PasskeyVerify(10))];
            && Run(reqs) && Verified(reqs, 2, METHOD_PASSKEY) && Verified(reqs, 3, METHOD_PASSKEY)
            && FinishOf(reqs, 2) == FinishOf(reqs, 3) == Some(1)
  {
    var reqs := [Request(0, Login(1, true)), Request(1, Finish(0, true, true)),
                 Request(2, PasskeyVerify(5)), Request(2, PasskeyVerify(10))];
    MethodsDiffer();
    assert Issued(reqs, 0) == NEW_SESSION;
    assert Issued(reqs, 1) == NEW_SESSION.(user := Some(1));
    assert Issued(reqs, 2) == Session(Some(1), Ready(0), None, None);
    MarkerIsFinish(reqs, 2);
  }

  /** What a later request may present: an issued session of `open`, or one issued from now on.
      Its passkey checks happen at `now` or later. */
  predicate Continues(reqs: seq<Request>, more: seq<Request>, open: set<nat>, now: int) {
    && Run(reqs + more)
    && (forall k :: 0 <= k < |more| ==> more[k].presents in open || more[k].presents > |reqs|)
    && (forall k :: 0 <= k < |more| && more[k].e.Verify? ==> more[k].e.checkedAt >= now)
  }

  /** Some continuation verifies a passkey on finish i again. */
  ghost predicate UsedAgain(reqs: seq<Request>, open: set<nat>, now: int, i: nat)
    requires Run(reqs)
  {
    exists more, j: nat :: Continues(reqs, more, open, now) && |reqs| <= j
                      && Verified(reqs + more, j, METHOD_PASSKEY) && FinishOf(reqs + more, j) == Some(i)
  }

  /** The sessions issued by a run do not depend on what follows. */
  lemma {:induction false} PrefixIssued(reqs: seq<Request>, more: seq<Request>, c: nat)
    requires Run(reqs) && Run(reqs + more) && c <= |reqs|
    ensures Issued(reqs + more, c) == Issued(reqs, c) && MarkerOf(reqs + more, c) == MarkerOf(reqs, c)
    ensures forall k :: 0 <= k < c ==> (reqs + more)[k] == reqs[k]
  {
    if c > 0 {
      assert (reqs + more)[c - 1] == reqs[c - 1];
      PrefixIssued(reqs, more, reqs[c - 1].presents);
    }
  }

  /** A session with finish i's marker descends, through sessions with that marker, from a
      session of `open`. */
  lemma {:induction false} MarkerFromOpen(reqs: seq<Request>, more: seq<Request>, open: set<nat>, now: int, i: nat, c: nat)
    requires Run(reqs) && Continues(reqs, more, open, now) && (forall o :: o in open ==> o <= |reqs|)
    requires i < |reqs| && c <= |reqs + more| && (c in open || c > |reqs|) && MarkerOf(reqs + more, c) == Some(i)
    ensures exists o :: o in open && MarkerOf(reqs, o) == Some(i)
  {
    if c in open {
      PrefixIssued(reqs, more, c);
    } else {
      assert (reqs + more)[c - 1] == more[c - 1 - |reqs|];
      MarkerFromOpen(reqs, more, open, now, i, (reqs + more)[c - 1].presents);
    }
  }

  lemma PresentedVerifies(reqs: seq<Request>, o: nat, i: nat, now: int)
    requires Run(reqs) && o <= |reqs| && MarkerOf(reqs, o) == Some(i) && i < |reqs|
    requires reqs[i].e.Finish? && now - reqs[i].e.now < PASSKEY_READY_TIMEOUT
    ensures var all := reqs + [Request(o, PasskeyVerify(now))];
            Run(all) && Verified(all, |reqs|, METHOD_PASSKEY) && FinishOf(all, |reqs|) == Some(i)
  {
    var all := reqs + [Request(o, PasskeyVerify(now))];
    MethodsDiffer();
    MarkerIsFinish(reqs, o);
    assert Run(all);
    PrefixIssued(reqs, [Request(o, PasskeyVerify(now))], o);
    assert all[|reqs|] == Request(o, PasskeyVerify(now));
  }

  lemma UseNeedsMarker(reqs: seq<Request>, more: seq<Request>, open: set<nat>, now: int, i: nat, j: nat)
    requires Run(reqs) && Continues(reqs, more, open, now) && (forall o :: o in open ==> o <= |reqs|)
    requires i < |reqs| <= j && Finished(reqs, i) && Verified(reqs + more, j, METHOD_PASSKEY) && FinishOf(reqs + more, j) == Some(i)
    ensures now - reqs[i].e.now < PASSKEY_READY_TIMEOUT && exists o :: o in open && MarkerOf(reqs, o) == Some(i)
  {
    var all := reqs + more;
    PasskeyRestsOnFinish(all, j);
    assert all[j] == more[j - |reqs|] && all[i] == reqs[i];
    MarkerFromOpen(reqs, more, open, now, i, all[j].presents);
  }

  lemma MarkerIsUsed(reqs: seq<Request>, open: set<nat>, now: int, i: nat, o: nat)
    requires Run(reqs) && i < |reqs| && Finished(reqs, i) && o in open && o <= |reqs|
    requires now - reqs[i].e.now < PASSKEY_READY_TIMEOUT && MarkerOf(reqs, o) == Some(i)
    ensures UsedAgain(reqs, open, now, i)
  {
    var more := [Request(o, PasskeyVerify(now))];
    PresentedVerifies(reqs, o, i, now);
    assert Continues(reqs, more, open, now);
  }

  /** The exact condition: finish i can justify a further verification exactly when a session
      that can still be presented carries its marker and the marker's 60 s are not over. */
  lemma FinishUsedAgain(reqs: seq<Request>, open: set<nat>, now: int, i: nat)
    requires Run(reqs) && i < |reqs| && Finished(reqs, i) && (forall o :: o in open ==> o <= |reqs|)
    ensures UsedAgain(reqs, open, now, i) <==>
            now - reqs[i].e.now < PASSKEY_READY_TIMEOUT && exists o :: o in open && MarkerOf(reqs, o) == Some(i)
  {
    if UsedAgain(reqs, open, now, i) {
      var more, j: nat :| Continues(reqs, more, open, now) && |reqs| <= j
        && Verified(reqs + more, j, METHOD_PASSKEY) && FinishOf(reqs + more, j) == Some(i);
      UseNeedsMarker(reqs, more, open, now, i, j);
    }
    if now - reqs[i].e.now < PASSKEY_READY_TIMEOUT {
      if o :| o in open && MarkerOf(reqs, o) == Some(i) {
        MarkerIsUsed(reqs, open, now, i, o);
      }
    }
  }

  /** A client that goes on from what it was sent last, as a browser does, cannot use a finish
      twice: the session a verification issues carries no marker. */
  lemma LatestSessionHasNoMarker(reqs: seq<Request>, now: int)
    requires Run(reqs) && reqs != [] && Verified(reqs, |reqs| - 1, METHOD_PASSKEY)
    ensures FinishOf(reqs, |reqs| - 1).Some?
    ensures !UsedAgain(reqs, {|reqs|}, now, FinishOf(reqs, |reqs| - 1).value)
  {
    PasskeyRestsOnFinish(reqs, |reqs| - 1);
    var i := FinishOf(reqs, |reqs| - 1).value;
    assert MarkerOf(reqs, |reqs|).None?;
    FinishUsedAgain(reqs, {|reqs|}, now, i);
  }

  /** No session issued before a verification is presented after it. */
  predicate GoesOnFrom(reqs: seq<Request>, j: nat) {
    forall k :: j < k < |reqs| ==> reqs[k].presents > j
  }

  lemma {:induction false} LaterMarker(reqs: seq<Request>, j: nat, c: nat)
    requires Run(reqs) && Verified(reqs, j, METHOD_PASSKEY) && GoesOnFrom(reqs, j) && j < c <= |reqs|
    ensures MarkerOf(reqs, c).Some? ==> MarkerOf(reqs, c).value > j
  {
    if c > j + 1 && MarkerOf(reqs, c).Some? && !Finished(reqs, c - 1) {
      LaterMarker(reqs, j, reqs[c - 1].presents);
    }
  }

  /** Then every finish justifies at most one verification: between two there is another one. */
  lemma FinishIsUsedOnce(reqs: seq<Request>, j1: nat, j2: nat)
    requires Run(reqs) && j1 < j2 && Verified(reqs, j1, METHOD_PASSKEY) && Verified(reqs, j2, METHOD_PASSKEY)
    requires GoesOnFrom(reqs, j1)
    ensures FinishOf(reqs, j2).Some? && j1 < FinishOf(reqs, j2).value < j2 && Finished(reqs, FinishOf(reqs, j2).value)
    ensures FinishOf(reqs, j1) != FinishOf(reqs, j2)
  {
    PasskeyRestsOnFinish(reqs, j1);
    PasskeyRestsOnFinish(reqs, j2);
    LaterMarker(reqs, j1, reqs[j2].presents);
  }

  // ----- How long a verification is accepted -----

  /** The session a verification issued is accepted for exactly its method and less than 300 s,
      whatever other requests did in between: no later finish, clearing or logout revokes it. */
  lemma IssuedVerificationStays(reqs: seq<Request>, j: nat, kind: string, n: nat)
    requires Run(reqs) && j < n < |reqs| && Verified(reqs, j, kind)
    requires reqs[n].e.Require? && reqs[n].presents == j + 1
    ensures Succeeds(reqs, n) <==>
            && Issued(reqs, reqs[j].presents).user.Some?
            && reqs[n].e.kind == kind && reqs[n].e.now - reqs[j].e.setAt < SECURE_VERIFICATION_TIMEOUT
  {
    assert Issued(reqs, j + 1) == Session(Issued(reqs, reqs[j].presents).user, Absent, Some(reqs[j].e.setAt), Some(kind));
  }

  /** So is every session obtained from it by logins and by required checks within the 300 s. */
  lemma {:induction false} VerificationLasts(reqs: seq<Request>, j: nat, kind: string, c: nat)
    requires Run(reqs) && j < c <= |reqs| && Verified(reqs, j, kind) && GoesOnFrom(reqs, j)
    requires forall k :: j < k < c ==>
               reqs[k].e.Login? || (reqs[k].e.Require? && reqs[k].e.now - reqs[j].e.setAt < SECURE_VERIFICATION_TIMEOUT)
    ensures Issued(reqs, c).verifiedAt == Some(reqs[j].e.setAt) && Issued(reqs, c).verifiedMethod == Some(kind)
    ensures forall n :: c <= n < |reqs| && reqs[n].presents == c && reqs[n].e.Require? ==>
              (Succeeds(reqs, n) <==>
                 && Issued(reqs, c).user.Some?
                 && reqs[n].e.kind == kind && reqs[n].e.now - reqs[j].e.setAt < SECURE_VERIFICATION_TIMEOUT)
  {
    if c > j + 1 {
      VerificationLasts(reqs, j, kind, reqs[c - 1].presents);
    }
  }

  /** The 358 s are reached: finish at 0, verification at 59, acceptance at 358. */
  lemma BoundIsReached()
    ensures var reqs := [Request(0, Login(1, true)), Request(1, Finish(0, true, true)), Request(2, PasskeyVerify(59)),
                         Request(3, Require(METHOD_PASSKEY, 358, true))];
            Run(reqs) && Finished(reqs, 1) && Succeeds(reqs, 3)
  {
    var reqs := [Request(0, Login(1, true)), Request(1, Finish(0, true, true)), Request(2, PasskeyVerify(59)),
                 Request(3, Require(METHOD_PASSKEY, 358, true))];
    MethodsDiffer();
    assert Issued(reqs, 0) == NEW_SESSION;
    assert Issued(reqs, 1) == NEW_SESSION.(user := Some(1));
    assert Issued(reqs, 2) == Session(Some(1), Ready(0), None, None);
    assert Issued(reqs, 3) == Session(Some(1), Absent, Some(59), Some(METHOD_PASSKEY));
  }

  // ----- Whose verification it is -----

  /** The user that a verification was made for. */
  function Verifier(reqs: seq<Request>, j: nat): Option<int>
    requires Run(reqs) && j < |reqs| && reqs[j].e.Verify?
  {
    Actor(Issued(reqs, reqs[j].presents), reqs[j].e.token)
  }

  /** The last user who logged in on the c-th session after request k issued it or a session it
      comes from. */
  function LoggedInSince(reqs: seq<Request>, c: nat, k: nat): Option<int>
    requires Run(reqs) && c <= |reqs|
  {
    if c <= k + 1 then None
    else if reqs[c - 1].e.Login? && Succeeds(reqs, c - 1) then Some(reqs[c - 1].e.id)
    else LoggedInSince(reqs, reqs[c - 1].presents, k)
  }

  /** While a session carries a verification or a marker of request k, only a login changes its user. */
  lemma {:induction false} UserSince(reqs: seq<Request>, c: nat, k: nat)
    requires Run(reqs) && c <= |reqs| && (OriginOf(reqs, c) == Some(k) || MarkerOf(reqs, c) == Some(k))
    ensures k < c
    ensures Issued(reqs, c).user ==
            if LoggedInSince(reqs, c, k).Some? then LoggedInSince(reqs, c, k) else UserAt(reqs, k)
  {
    OriginIsVerification(reqs, c);
    MarkerIsFinish(reqs, c);
    if c > k + 1 {
      UserSince(reqs, reqs[c - 1].presents, k);
    }
  }

  /** The exact condition: an accepted verification was made for the user it is accepted for exactly
      when nobody else was the last to log in on the session since. */
  lemma OwnVerification(reqs: seq<Request>, n: nat)
    requires Run(reqs) && Succeeds(reqs, n) && reqs[n].e.Require?
    ensures OriginOf(reqs, reqs[n].presents).Some? && UserAt(reqs, n).Some?
    ensures var j := OriginOf(reqs, reqs[n].presents).value;
            && j < n && Verified(reqs, j, reqs[n].e.kind)
            && (Verifier(reqs, j) == UserAt(reqs, n) <==>
                LoggedInSince(reqs, reqs[n].presents, j).None? || LoggedInSince(reqs, reqs[n].presents, j) == Verifier(reqs, j))
  {
    OriginIsVerification(reqs, reqs[n].presents);
    UserSince(reqs, reqs[n].presents, OriginOf(reqs, reqs[n].presents).value);
  }

  /** The same for the finish under a passkey verification. */
  lemma OwnFinish(reqs: seq<Request>, j: nat)
    requires Run(reqs) && Verified(reqs, j, METHOD_PASSKEY)
    ensures FinishOf(reqs, j).Some? && Verifier(reqs, j).Some?
    ensures var i := FinishOf(reqs, j).value;
            && i < j && Finished(reqs, i)
            && (UserAt(reqs, i) == Verifier(reqs, j) <==>
                LoggedInSince(reqs, reqs[j].presents, i).None? || LoggedInSince(reqs, reqs[j].presents, i) == UserAt(reqs, i))
  {
    PasskeyRestsOnFinish(reqs, j);
    MarkerIsFinish(reqs, reqs[j].presents);
    UserSince(reqs, reqs[j].presents, FinishOf(reqs, j).value);
  }

  /** Whoever logs in does so on a session without verification and marker, as after a logout, or on
      an own one. */
  predicate LoginsStartAfresh(reqs: seq<Request>)
    requires Run(reqs)
  {
    forall k :: 0 <= k < |reqs| && reqs[k].e.Login? ==>
      var s := Issued(reqs, reqs[k].presents);
      (s.verifiedAt.None? && s.ready.Absent?) || s.user == Some(reqs[k].e.id)
  }

  lemma {:induction false} SameUserSince(reqs: seq<Request>, c: nat, k: nat)
    requires Run(reqs) && c <= |reqs| && LoginsStartAfresh(reqs)
    requires OriginOf(reqs, c) == Some(k) || MarkerOf(reqs, c) == Some(k)
    ensures k < c && Issued(reqs, c).user == UserAt(reqs, k)
  {
    OriginIsVerification(reqs, c);
    MarkerIsFinish(reqs, c);
    if c > k + 1 {
      SameUserSince(reqs, reqs[c - 1].presents, k);
    }
  }

  /** Then every accepted method was verified, and every finish under it made, by the user it is
      accepted for. */
  lemma AcceptedForItsUser(reqs: seq<Request>, n: nat)
    requires Run(reqs) && LoginsStartAfresh(reqs) && Succeeds(reqs, n) && reqs[n].e.Require?
    ensures OriginOf(reqs, reqs[n].presents).Some?
    ensures var j := OriginOf(reqs, reqs[n].presents).value;
            && j < n && Verified(reqs, j, reqs[n].e.kind) && Verifier(reqs, j) == UserAt(reqs, n)
            && (reqs[n].e.kind == METHOD_PASSKEY ==>
                  exists i: nat :: i < j && FinishOf(reqs, j) == Some(i) && UserAt(reqs, i) == UserAt(reqs, n))
  {
    OwnVerification(reqs, n);
    var j := OriginOf(reqs, reqs[n].presents).value;
    SameUserSince(reqs, reqs[n].presents, j);
    if reqs[n].e.kind == METHOD_PASSKEY {
      OwnFinish(reqs, j);
      var i := FinishOf(reqs, j).value;
      SameUserSince(reqs, reqs[j].presents, i);
      assert FinishOf(reqs, j) == Some(i);
    }
  }

  /** Without that: whoever logs in on a session that carries a verification is accepted by it. */
  lemma LoginKeepsVerification(reqs: seq<Request>, c: nat, j: nat, id: int, now: int)
    requires Run(reqs) && j < c <= |reqs| && OriginOf(reqs, c) == Some(j)
    requires reqs[j].e.Verify? && now - reqs[j].e.setAt < SECURE_VERIFICATION_TIMEOUT
    ensures var all := reqs + [Request(c, Login(id, true)), Request(|reqs| + 1, Require(reqs[j].e.kind, now, true))];
            Run(all) && Succeeds(all, |reqs| + 1) && UserAt(all, |reqs| + 1) == Some(id)
  {
    var more := [Request(c, Login(id, true)), Request(|reqs| + 1, Require(reqs[j].e.kind, now, true))];
    var all := reqs + more;
    OriginIsVerification(reqs, c);
    PrefixIssued(reqs, more, c);
    assert all[|reqs|] == more[0] && all[|reqs| + 1] == more[1];
    assert Issued(all, |reqs| + 1) == Issued(reqs, c).(user := Some(id));
  }

  function CodeVerify(at: int): Event {
    Verify(METHOD_2FA, None, true, false, true, true, at, at, true, true)
  }

  /** A run in which user 1 verifies and user 2 is accepted. */
  lemma OthersVerification()
    ensures var reqs := [Request(0, Login(1, true)), Request(1, CodeVerify(0)), Request(2, Login(2, true)),
                         Request(3, Require(METHOD_2FA, 10, true))];
            && Run(reqs) && Succeeds(reqs, 3) && UserAt(reqs, 3) == Some(2)
            && OriginOf(reqs, 3) == Some(1) && Verifier(reqs, 1) == Some(1)
  {
    var reqs := [Request(0, Login(1, true)), Request(1, CodeVerify(0)), Request(2, Login(2, true)),
                 Request(3, Require(METHOD_2FA, 10, true))];
    assert Issued(reqs, 0) == NEW_SESSION;
    assert Issued(reqs, 1) == NEW_SESSION.(user := Some(1));
    assert Issued(reqs, 2) == Session(Some(1), Absent, Some(0), Some(METHOD_2FA));
    assert Issued(reqs, 3) == Session(Some(2), Absent, Some(0), Some(METHOD_2FA));
  }
}
