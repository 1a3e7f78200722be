/** The one-shot fault: once armed with a target, the first connection that binds the target before the deadline
    loses the reply to its next COMMIT, and nothing else is ever lost. */
module CommitFault {
  import opened Wrappers
  import opened BindMessage

  const ARM_SECONDS := 30.0
  const NAMESPACE := "knora-otp-proof:"
  const COMMIT_TAG: seq<byte> := [0x43, 0x4F, 0x4D, 0x4D, 0x49, 0x54, 0]
  const BIND_TYPE: byte := 0x42
  const COMPLETE_TYPE: byte := 0x43

  // ---------- identities ----------

  predicate Alphanumeric(c: char) { 'a' <= c <= 'z' || 'A' <= c <= 'Z' || '0' <= c <= '9' }

  predicate LowerHex(c: char) { 'a' <= c <= 'f' || '0' <= c <= '9' }

  /** The namespace followed by 1 to 100 letters, digits, colons and hyphens. */
  predicate ValidChallenge(s: string) {
    && NAMESPACE <= s && 1 <= |s| - |NAMESPACE| <= 100
    && forall i :: |NAMESPACE| <= i < |s| ==> Alphanumeric(s[i]) || s[i] == ':' || s[i] == '-'
  }

  /** Lower-case hexadecimal digits in groups of 8, 4, 4, 4 and 12. */
  predicate ValidActivation(s: string) {
    |s| == 36 && forall i :: 0 <= i < 36 ==> if i in {8, 13, 18, 23} then s[i] == '-' else LowerHex(s[i])
  }

  /** A challenge is the namespace and up to 100 further characters, each a letter, a digit, a colon or a hyphen. */
  lemma ChallengeMeans(s: string)
    ensures ValidChallenge(s) <==>
              16 < |s| <= 116 && s[..16] == "knora-otp-proof:"
              && forall i :: 16 <= i < |s| ==>
                   var code := s[i] as int; 48 <= code <= 58 || 65 <= code <= 90 || 97 <= code <= 122 || code == 45
  {
    assert |NAMESPACE| == 16;
    if ValidChallenge(s) { assert s[..16] == NAMESPACE; }
  }

  predicate HexPart(s: string, n: nat) {
    |s| == n && forall i :: 0 <= i < n ==> var code := s[i] as int; 48 <= code <= 57 || 97 <= code <= 102
  }

  /** An activation is five hexadecimal groups of the fixed lengths, joined by hyphens. */
  lemma ActivationMeans(s: string)
    ensures ValidActivation(s) <==>
              |s| == 36 && HexPart(s[..8], 8) && HexPart(s[9..13], 4) && HexPart(s[14..18], 4) && HexPart(s[19..23], 4) && HexPart(s[24..], 12)
              && s[8] == s[13] == s[18] == s[23] == '-'
  {
    if |s| == 36 {
      assert forall i :: 0 <= i < 8 ==> s[..8][i] == s[i];
      assert forall i :: 9 <= i < 13 ==> s[9..13][i - 9] == s[i];
      assert forall i :: 14 <= i < 18 ==> s[14..18][i - 14] == s[i];
      assert forall i :: 19 <= i < 23 ==> s[19..23][i - 19] == s[i];
      assert forall i :: 24 <= i < 36 ==> s[24..][i - 24] == s[i];
    }
  }

  /** A request arms the character codes of its own identity, and nothing else is armed. */
  lemma TargetMeans(r: Request)
    ensures TargetOf(r).Some? <==> (r.Challenge? && ValidChallenge(r.value)) || (r.Activation? && ValidActivation(r.value))
    ensures TargetOf(r).Some? ==>
              |TargetOf(r).value| == |r.value| && forall i :: 0 <= i < |r.value| ==> TargetOf(r).value[i] as int == r.value[i] as int
  {
    if r.Challenge? || r.Activation? { IdentitiesAreAscii(r.value); }
    hide ValidChallenge, ValidActivation;
  }

  predicate AsciiOnly(s: string) {
    forall i :: 0 <= i < |s| ==> s[i] < '\U{80}'
  }

  function Ascii(s: string): seq<byte>
    requires AsciiOnly(s)
  {
    seq(|s|, i requires 0 <= i < |s| => s[i] as int as byte)
  }

  lemma IdentitiesAreAscii(s: string)
    ensures ValidChallenge(s) || ValidActivation(s) ==> AsciiOnly(s)
  {
    if ValidChallenge(s) {
      forall i | 0 <= i < |s| ensures s[i] < '\U{80}' { if i < |NAMESPACE| { assert s[i] == NAMESPACE[i]; } }
    }
  }

  datatype Request = Challenge(value: string) | Activation(value: string) | Malformed

  /** The bytes a request arms, none when it is refused. */
  function TargetOf(r: Request): Option<seq<byte>> {
    match r
    case Challenge(s) => if ValidChallenge(s) then IdentitiesAreAscii(s); Some(Ascii(s)) else None
    case Activation(s) => if ValidActivation(s) then IdentitiesAreAscii(s); Some(Ascii(s)) else None
    case Malformed => None
  }

  // ---------- one call ----------

  datatype State = State(target: Option<seq<byte>>, deadline: real, connection: Option<string>, confirmed: nat)

  datatype Call =
    | Arm(request: Request, now: real)
    | Disarm
    | Claim(connection: string, kind: byte, payload: seq<byte>, now: real)
    | Suppress(connection: string, kind: byte, payload: seq<byte>, now: real)

  const DISARMED := State(None, 0.0, None, 0)

  function Parameters(payload: seq<byte>): seq<seq<byte>> {
    match Decode(payload) case None => [] case Some(b) => NonNull(b.params)
  }

  /** The new state, and whether the call was granted. */
  function Step(s: State, c: Call): (State, bool) {
    match c
    case Arm(r, now) =>
      if TargetOf(r) == None || (s.target.Some? && now < s.deadline) then (s, false)
      else (State(TargetOf(r), now + ARM_SECONDS, None, 0), true)
    case Disarm => (State(None, 0.0, None, s.confirmed), true)
    case Claim(connection, kind, payload, now) =>
      if kind == BIND_TYPE && s.target.Some? && s.connection == None && now < s.deadline && s.target.value in Parameters(payload)
      then (s.(connection := Some(connection)), true)
      else (s, false)
    case Suppress(connection, kind, payload, now) =>
      if s.connection == Some(connection) && now < s.deadline && kind == COMPLETE_TYPE && payload == COMMIT_TAG
      then (State(None, 0.0, None, s.confirmed + 1), true)
      else (s, false)
  }

  /** The object of the proxy; `calls` records what was asked of it. */
  class Fault {
    var target: Option<seq<byte>>
    var deadline: real
    var connection: Option<string>
    var confirmed: nat
    ghost var calls: seq<Call>

    function Value(): State
      reads this
    {
      State(target, deadline, connection, confirmed)
    }

    ghost predicate Valid()
      reads this
    {
      Value() == After(calls)
    }

    constructor ()
      ensures Valid() && calls == []
    {
      target, deadline, connection, confirmed := None, 0.0, None, 0;
      calls := [];
    }

    method DisarmFault()
      requires Valid()
      modifies this
      ensures Valid() && calls == old(calls) + [Disarm]
      ensures Value() == Step(old(Value()), Disarm).0
    {
      target, deadline, connection := None, 0.0, None;
      AfterAppend(calls, Disarm);
      calls := calls + [Disarm];
    }

    method ArmTarget(value: string, now: real) returns (ok: bool)
      requires Valid()
      modifies this
      ensures Valid() && calls == old(calls) + [Arm(Challenge(value), now)]
      ensures (Value(), ok) == Step(old(Value()), Arm(Challenge(value), now))
    {
      hide ValidChallenge, Ascii, AsciiOnly, After, Granted;
      AfterAppend(calls, Arm(Challenge(value), now));
      calls := calls + [Arm(Challenge(value), now)];
      if !ValidChallenge(value) { return false; }
      if target.Some? && now < deadline { return false; }
      IdentitiesAreAscii(value);
      target, deadline, connection, confirmed := Some(Ascii(value)), now + ARM_SECONDS, None, 0;
      return true;
    }

    /** An activation is armed under a fixed challenge first, and its own bytes replace that target. */
    method ArmRequest(request: Request, now: real) returns (ok: bool)
      requires Valid()
      modifies this
      ensures Valid() && calls == old(calls) + [Arm(request, now)]
      ensures (Value(), ok) == Step(old(Value()), Arm(request, now))
      ensures ok == Granted(calls, |calls| - 1)
    {
      hide ValidChallenge, ValidActivation, Ascii, AsciiOnly, After, Granted;
      AfterAppend(calls, Arm(request, now));
      ghost var history := calls + [Arm(request, now)];
      ok := false;
      match request {
        case Malformed =>
        case Challenge(value) => ok := ArmTarget(value, now);
        case Activation(value) =>
          if ValidActivation(value) {
            PlaceholderIsValid();
            ok := ArmTarget(NAMESPACE + "activation", now);
            if ok {
              IdentitiesAreAscii(value);
              target := Some(Ascii(value));
            }
          }
      }
      calls := history;
    }

    method ClaimConnection(peer: string, kind: byte, payload: seq<byte>, now: real) returns (ok: bool)
      requires Valid()
      modifies this
      ensures Valid() && calls == old(calls) + [Claim(peer, kind, payload, now)]
      ensures (Value(), ok) == Step(old(Value()), Claim(peer, kind, payload, now))
    {
      hide After, Granted, Decode, NonNull;
      AfterAppend(calls, Claim(peer, kind, payload, now));
      calls := calls + [Claim(peer, kind, payload, now)];
      if kind != BIND_TYPE || target.None? || connection.Some? { return false; }
      if now >= deadline { return false; }
      var parameters := BindParameters(payload);
      if target.value !in parameters { return false; }
      connection := Some(peer);
      return true;
    }

    /** The reply is dropped when the result is true. */
    method SuppressReply(peer: string, kind: byte, payload: seq<byte>, now: real) returns (ok: bool)
      requires Valid()
      modifies this
      ensures Valid() && calls == old(calls) + [Suppress(peer, kind, payload, now)]
      ensures (Value(), ok) == Step(old(Value()), Suppress(peer, kind, payload, now))
      ensures ok == Dropped(calls, |calls| - 1)
    {
      AfterAppend(calls, Suppress(peer, kind, payload, now));
      ghost var history := calls + [Suppress(peer, kind, payload, now)];
      ok := connection == Some(peer) && now < deadline && kind == COMPLETE_TYPE && payload == COMMIT_TAG;
      if ok {
        DisarmFault();
        confirmed := confirmed + 1;
      }
      calls := history;
    }
  }

  lemma AfterAppend(calls: seq<Call>, c: Call)
    ensures After(calls + [c]) == Step(After(calls), c).0
    ensures Granted(calls + [c], |calls|) == Step(After(calls), c).1
  {
    assert (calls + [c])[..|calls|] == calls;
  }

  lemma PlaceholderIsValid()
    ensures ValidChallenge(NAMESPACE + "activation")
  {
  }

  // ---------- runs ----------

  function After(calls: seq<Call>): State
    decreases |calls|
  {
    if calls == [] then DISARMED else Step(After(calls[..|calls| - 1]), calls[|calls| - 1]).0
  }

  predicate Granted(calls: seq<Call>, i: nat)
    requires i < |calls|
  {
    Step(After(calls[..i]), calls[i]).1
  }

  /** The reply of the COMMIT at `i` is dropped. */
  predicate Dropped(calls: seq<Call>, i: nat)
    requires i < |calls|
  {
    calls[i].Suppress? && Granted(calls, i)
  }

  /** A granted call that ends whatever was armed before. */
  predicate Resets(calls: seq<Call>, i: nat)
    requires i < |calls|
  {
    Granted(calls, i) && !calls[i].Claim?
  }

  /** The arm of call `k` is the one in force before call `n`. */
  ghost predicate InForce(calls: seq<Call>, k: nat, n: nat) {
    k < n <= |calls| && calls[k].Arm? && Granted(calls, k) && forall i :: k < i < n ==> !Resets(calls, i)
  }

  /** Call `j` binds the target of the arm of call `k` before its deadline. */
  predicate Binds(calls: seq<Call>, k: nat, j: nat)
    requires k < |calls| && j < |calls| && calls[k].Arm? && TargetOf(calls[k].request).Some?
  {
    && calls[j].Claim? && calls[j].kind == BIND_TYPE && calls[j].now < calls[k].now + ARM_SECONDS
    && TargetOf(calls[k].request).value in Parameters(calls[j].payload)
  }

  /** Call `j`, before call `n`, is the first to bind the target of the arm of call `k`. */
  ghost predicate FirstToBind(calls: seq<Call>, k: nat, j: nat, n: nat)
    requires k < n <= |calls| && calls[k].Arm? && TargetOf(calls[k].request).Some?
  {
    k < j < n && calls[j].Claim? && Binds(calls, k, j) && forall i :: k < i < j ==> !Binds(calls, k, i)
  }

  lemma AfterStep(calls: seq<Call>, n: nat)
    requires n < |calls|
    ensures After(calls[..n + 1]) == Step(After(calls[..n]), calls[n]).0
  {
    assert calls[..n + 1][..n] == calls[..n];
  }

  // ---------- the state says what the history says ----------

  /** The connection that may lose its reply is the first that bound the target in force. */
  ghost predicate ConnectionIsFirst(calls: seq<Call>, k: nat, n: nat, connection: Option<string>)
    requires k < n <= |calls| && calls[k].Arm? && TargetOf(calls[k].request).Some?
  {
    match connection
    case None => forall j: nat :: k < j < n ==> !Binds(calls, k, j)
    case Some(c) => exists j: nat :: FirstToBind(calls, k, j, n) && calls[j].connection == c
  }

  ghost predicate HeldBy(calls: seq<Call>, k: nat, n: nat, s: State) {
    && InForce(calls, k, n) && TargetOf(calls[k].request).Some?
    && s.target == TargetOf(calls[k].request) && s.deadline == calls[k].now + ARM_SECONDS
    && ConnectionIsFirst(calls, k, n, s.connection)
  }

  ghost predicate Tracks(calls: seq<Call>, n: nat)
    requires n <= |calls|
  {
    var s := After(calls[..n]);
    if s.target.None? then s.connection.None? && forall k: nat :: !InForce(calls, k, n)
    else exists k: nat :: HeldBy(calls, k, n, s)
  }

  lemma InForceStep(calls: seq<Call>, k: nat, n: nat)
    requires n < |calls|
    ensures InForce(calls, k, n + 1) <==>
            (k == n && calls[n].Arm? && Granted(calls, n)) || (InForce(calls, k, n) && !Resets(calls, n))
  {
    hide Granted;
  }

  lemma ConnectionStep(calls: seq<Call>, k: nat, n: nat, connection: Option<string>)
    requires k < n < |calls| && calls[k].Arm? && TargetOf(calls[k].request).Some? && ConnectionIsFirst(calls, k, n, connection)
    ensures ConnectionIsFirst(calls, k, n + 1, if connection == None && Binds(calls, k, n) then Some(calls[n].connection) else connection)
  {
    hide Binds;
    match connection
    case Some(c) =>
      var j: nat :| FirstToBind(calls, k, j, n) && calls[j].connection == c;
      assert FirstToBind(calls, k, j, n + 1);
    case None =>
      if Binds(calls, k, n) { BindsIsClaim(calls, k, n); assert FirstToBind(calls, k, n, n + 1); }
  }

  lemma BindsIsClaim(calls: seq<Call>, k: nat, j: nat)
    requires k < |calls| && j < |calls| && calls[k].Arm? && TargetOf(calls[k].request).Some?
    ensures Binds(calls, k, j) ==> calls[j].Claim?
  {
  }

  /** A call that does not reset leaves target and deadline, and claims exactly when it is the first to bind. */
  lemma HeldStep(calls: seq<Call>, k: nat, n: nat)
    requires n < |calls| && HeldBy(calls, k, n, After(calls[..n])) && !Resets(calls, n)
    ensures HeldBy(calls, k, n + 1, After(calls[..n + 1]))
  {
    hide After, ConnectionIsFirst, TargetOf, InForce, Parameters;
    var s := After(calls[..n]);
    AfterStep(calls, n);
    InForceStep(calls, k, n);
    assert InForce(calls, k, n) ==> k < n && calls[k].Arm? by { InForceIsArm(calls, k, n); }
    ConnectionStep(calls, k, n, s.connection);
    var t := Step(s, calls[n]).0;
    assert t.connection == if s.connection == None && Binds(calls, k, n) then Some(calls[n].connection) else s.connection;
  }

  lemma InForceIsArm(calls: seq<Call>, k: nat, n: nat)
    ensures InForce(calls, k, n) ==> k < n <= |calls| && calls[k].Arm? && Granted(calls, k)
  {
  }

  lemma TracksStep(calls: seq<Call>, n: nat)
    requires n < |calls| && Tracks(calls, n)
    ensures Tracks(calls, n + 1)
  {
    hide After, ConnectionIsFirst, TargetOf, InForce, Parameters;
    var s, m := After(calls[..n]), n + 1;
    AfterStep(calls, n);
    forall k: nat ensures InForce(calls, k, m) <==>
                     (k == n && calls[n].Arm? && Granted(calls, n)) || (InForce(calls, k, n) && !Resets(calls, n))
    {
      InForceStep(calls, k, n);
    }
    if Resets(calls, n) {
      if calls[n].Arm? { FreshArm(calls, n); }
    } else if s.target.Some? {
      var k: nat :| HeldBy(calls, k, n, s);
      HeldStep(calls, k, n);
    }
  }

  lemma FreshArm(calls: seq<Call>, n: nat)
    requires n < |calls| && calls[n].Arm? && Granted(calls, n)
    ensures HeldBy(calls, n, n + 1, After(calls[..n + 1]))
  {
    AfterStep(calls, n);
  }

  lemma {:induction false} TracksAlways(calls: seq<Call>, n: nat)
    requires n <= |calls|
    ensures Tracks(calls, n)
  {
    if n > 0 {
      TracksAlways(calls, n - 1);
      TracksStep(calls, n - 1);
    }
  }

  lemma OneInForce(calls: seq<Call>, k: nat, l: nat, n: nat)
    requires InForce(calls, k, n) && InForce(calls, l, n)
    ensures k == l
  {
    assert k < l ==> Resets(calls, l);
    assert l < k ==> Resets(calls, k);
  }

  lemma OneFirst(calls: seq<Call>, k: nat, i: nat, j: nat, n: nat)
    requires k < n <= |calls| && calls[k].Arm? && TargetOf(calls[k].request).Some?
    requires FirstToBind(calls, k, i, n) && FirstToBind(calls, k, j, n)
    ensures i == j
  {
    hide Binds;
  }

  // ---------- what may be lost ----------

  /** Call `i` reports a COMMIT on the connection that was the first, at call `j`, to bind the target of the arm
      in force, the one of call `k`, whose deadline has not passed. */
  ghost predicate Entitled(calls: seq<Call>, i: nat, k: nat, j: nat)
    requires i < |calls|
  {
    && calls[i].Suppress? && calls[i].kind == COMPLETE_TYPE && calls[i].payload == COMMIT_TAG
    && InForce(calls, k, i) && TargetOf(calls[k].request).Some? && calls[i].now < calls[k].now + ARM_SECONDS
    && FirstToBind(calls, k, j, i) && calls[j].connection == calls[i].connection
  }

  /** A reply is dropped exactly when its connection was the first to bind the exact target of the arm in force,
      before the deadline. */
  lemma DroppedIffEntitled(calls: seq<Call>, i: nat)
    requires i < |calls|
    ensures Dropped(calls, i) <==> exists k: nat, j: nat :: Entitled(calls, i, k, j)
  {
    hide After, TargetOf, InForce, Binds;
    TracksAlways(calls, i);
    var s := After(calls[..i]);
    if Dropped(calls, i) {
      var k: nat :| HeldBy(calls, k, i, s);
      InForceIsArm(calls, k, i);
      var j: nat :| FirstToBind(calls, k, j, i) && calls[j].connection == s.connection.value;
      assert Entitled(calls, i, k, j);
    }
    if k: nat, j: nat :| Entitled(calls, i, k, j) {
      EntitledIsHeld(calls, i, k, j);
    }
  }

  lemma FirstIsKnown(calls: seq<Call>, k: nat, j: nat, n: nat, connection: Option<string>)
    requires k < n <= |calls| && calls[k].Arm? && TargetOf(calls[k].request).Some?
    ensures ConnectionIsFirst(calls, k, n, connection) && FirstToBind(calls, k, j, n) ==> connection.Some?
  {
  }

  lemma EntitledIsHeld(calls: seq<Call>, i: nat, k: nat, j: nat)
    requires i < |calls| && Tracks(calls, i) && Entitled(calls, i, k, j)
    ensures After(calls[..i]).connection == Some(calls[i].connection) && After(calls[..i]).deadline == calls[k].now + ARM_SECONDS
  {
    hide After, TargetOf, InForce, Binds;
    var s := After(calls[..i]);
    var l: nat :| HeldBy(calls, l, i, s);
    OneInForce(calls, k, l, i);
    InForceIsArm(calls, k, i);
    FirstIsKnown(calls, k, j, i, s.connection);
    var m: nat :| FirstToBind(calls, k, m, i) && calls[m].connection == s.connection.value;
    OneFirst(calls, k, j, m, i);
  }

  /** An arm is granted exactly when it names an identity and no earlier arm is in force and unexpired. */
  lemma ArmGrantedIff(calls: seq<Call>, i: nat)
    requires i < |calls| && calls[i].Arm?
    ensures Granted(calls, i) <==>
              TargetOf(calls[i].request).Some?
              && !exists k: nat :: InForce(calls, k, i) && calls[k].Arm? && calls[i].now < calls[k].now + 30.0
  {
    hide After, TargetOf, InForce, ConnectionIsFirst;
    TracksAlways(calls, i);
    var s := After(calls[..i]);
    if s.target.Some? {
      var k: nat :| HeldBy(calls, k, i, s);
      InForceIsArm(calls, k, i);
      forall l: nat | InForce(calls, l, i) ensures l == k { OneInForce(calls, k, l, i); }
    }
  }

  /** A connection is claimed exactly by the call that is the first to bind the target of the arm in force. */
  lemma ClaimGrantedIff(calls: seq<Call>, i: nat)
    requires i < |calls| && calls[i].Claim?
    ensures Granted(calls, i) <==>
              exists k: nat :: InForce(calls, k, i) && calls[k].Arm? && TargetOf(calls[k].request).Some? && FirstToBind(calls, k, i, i + 1)
  {
    hide After, TargetOf, InForce, Binds, Parameters;
    TracksAlways(calls, i);
    var s := After(calls[..i]);
    if s.target.Some? {
      var k: nat :| HeldBy(calls, k, i, s);
      InForceIsArm(calls, k, i);
      forall l: nat | InForce(calls, l, i) ensures l == k { OneInForce(calls, k, l, i); }
      ClaimedIsFirst(calls, k, i, s);
    }
  }

  lemma ClaimedIsFirst(calls: seq<Call>, k: nat, i: nat, s: State)
    requires i < |calls| && calls[i].Claim? && HeldBy(calls, k, i, s) && s == After(calls[..i]) && k < i && calls[k].Arm?
    ensures Granted(calls, i) <==> FirstToBind(calls, k, i, i + 1)
  {
    hide After, TargetOf, InForce, Parameters;
    assert Binds(calls, k, i) <==> Step(s.(connection := None), calls[i]).1;
    if s.connection.Some? {
      var j: nat :| FirstToBind(calls, k, j, i) && calls[j].connection == s.connection.value;
      assert Binds(calls, k, j);
    }
  }

  /** Between two dropped replies the fault was armed again. */
  lemma AtMostOneDropPerArm(calls: seq<Call>, i: nat, j: nat)
    requires i < j < |calls| && Dropped(calls, i) && Dropped(calls, j)
    ensures exists k :: i < k < j && calls[k].Arm? && Granted(calls, k)
  {
    hide After, TargetOf, Binds;
    DroppedIffEntitled(calls, j);
    var k: nat, l: nat :| Entitled(calls, j, k, l);
    assert k != i && (k < i ==> !Resets(calls, i));
  }

  ghost predicate DroppedSinceArm(calls: seq<Call>, n: nat, i: nat)
    requires n <= |calls|
  {
    i < n && Dropped(calls, i) && forall k :: i < k < n ==> !(calls[k].Arm? && Granted(calls, k))
  }

  /** The counter reports whether a reply was dropped since the last arm; it never exceeds one. */
  lemma {:induction false} ConfirmedIsTheDrop(calls: seq<Call>, n: nat)
    requires n <= |calls|
    ensures After(calls[..n]).confirmed <= 1
    ensures After(calls[..n]).confirmed == 1 <==> exists i: nat :: DroppedSinceArm(calls, n, i)
    decreases n
  {
    hide After;
    if n == 0 {
      NothingDropped(calls);
    } else {
      var m: nat := n - 1;
      ConfirmedIsTheDrop(calls, m);
      AfterStep(calls, m);
      DropStep(calls, m, n);
      if i: nat :| DroppedSinceArm(calls, m, i) {
        if Dropped(calls, m) { AtMostOneDropPerArm(calls, i, m); }
      }
    }
  }

  lemma DropStep(calls: seq<Call>, m: nat, n: nat)
    requires n == m + 1 <= |calls|
    ensures (exists i: nat :: DroppedSinceArm(calls, n, i)) <==>
            Dropped(calls, m) || (!(calls[m].Arm? && Granted(calls, m)) && exists i: nat :: DroppedSinceArm(calls, m, i))
  {
    hide Granted;
    if Dropped(calls, m) { assert DroppedSinceArm(calls, n, m); }
    if i: nat :| DroppedSinceArm(calls, m, i) {
      assert !(calls[m].Arm? && Granted(calls, m)) ==> DroppedSinceArm(calls, n, i);
    }
    if i: nat :| DroppedSinceArm(calls, n, i) {
      assert i < m ==> DroppedSinceArm(calls, m, i);
    }
  }

  lemma NothingDropped(calls: seq<Call>)
    ensures After(calls[..0]).confirmed == 0
  {
  }
}
