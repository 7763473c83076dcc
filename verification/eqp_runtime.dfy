/**
 * `EqpRuntime`: the validated, immutable view of one configured EQP. The
 * constructor trims the three ids, rejects missing collaborators and
 * copies the vars map with lower-cased keys. The copy is a Dafny `map`
 * value, so nobody can change it afterwards.
 */
module EqpRuntimes {
  import opened Wrappers
  import opened JavaText
  import opened Config
  import opened HostPorts

  /** One entry of the configured vars map, in iteration order; key and value may be null. */
  type VarEntry = (Option<string>, Option<string>)

  datatype EqpRuntime = EqpRuntime(
    eqpId: string,
    mode: Mode,
    endpointId: string,
    endpointAddress: HostPort,
    passiveMaxConn: int,
    socketType: SocketType,
    profileId: string,
    profile: Profile,
    waitTimeoutSec: int,
    handshakeTimeoutSec: int,
    vars: map<string, Option<string>>)

  /** `requireNotBlank`: a present id with something left after `trim()`, stored trimmed. */
  function RequireNotBlank(v: Option<string>): (r: Result<string>)
    ensures r.Ok? <==> v.Some? && Trim(v.value) != []
    ensures r.Ok? ==> r.value == Trim(v.value) && r.value != [] && Trim(r.value) == r.value
    ensures r.Err? ==> r.error == IllegalArgument
  {
    if v.None? || Trim(v.value) == [] then Err(IllegalArgument)
    else
      TrimIdempotent(v.value);
      Ok(Trim(v.value))
  }

  // ---------------------------------------------------------------------
  // The vars map

  /** What the constructor's loop leaves in the map after the given entries: later entries overwrite. */
  function LowerVars(es: seq<VarEntry>): map<string, Option<string>>
  {
    if es == [] then map[]
    else
      var m := LowerVars(es[..|es| - 1]);
      var e := es[|es| - 1];
      if e.0.None? then m else m[ToLower(e.0.value) := e.1]
  }

  /** A null vars map gives the empty map. */
  function VarsOf(vars: Option<seq<VarEntry>>): map<string, Option<string>>
  {
    if vars.None? then map[] else LowerVars(vars.value)
  }

  /** The constructor's loop over the entries. */
  method NormalizeVars(vars: Option<seq<VarEntry>>) returns (m: map<string, Option<string>>)
    ensures m == VarsOf(vars)
  {
    m := map[];
    if vars.None? {
      return;
    }
    var es := vars.value;
    for i := 0 to |es|
      invariant m == LowerVars(es[..i])
    {
      assert es[..i + 1][..i] == es[..i];
      var e := es[i];
      if e.0.None? {
        continue;
      }
      m := m[ToLower(e.0.value) := e.1];
    }
    assert es[..|es|] == es;
  }

  /** Keys with a non-null key among the entries, lower-cased. */
  predicate NamesKey(es: seq<VarEntry>, i: int, k: string) {
    0 <= i < |es| && es[i].0.Some? && ToLower(es[i].0.value) == k
  }

  /** A key is in the map exactly when some non-null entry key lower-cases to it. */
  lemma {:induction false} LowerVarsKeys(es: seq<VarEntry>, k: string)
    ensures k in LowerVars(es) <==> exists i :: NamesKey(es, i, k)
  {
    if es != [] {
      var init := es[..|es| - 1];
      LowerVarsKeys(init, k);
      if exists i :: NamesKey(init, i, k) {
        var i :| NamesKey(init, i, k);
        assert NamesKey(es, i, k);
      }
      var e := es[|es| - 1];
      if e.0.Some? && ToLower(e.0.value) == k {
        assert NamesKey(es, |es| - 1, k);
      }
      if exists i :: NamesKey(es, i, k) {
        var i :| NamesKey(es, i, k);
        if i < |es| - 1 {
          assert NamesKey(init, i, k);
        }
      }
    }
  }

  /** The value stored under a key is the one of the last entry whose key lower-cases to it. */
  lemma {:induction false} LowerVarsLastWins(es: seq<VarEntry>, i: int, k: string)
    requires NamesKey(es, i, k)
    requires forall j :: i < j < |es| ==> !NamesKey(es, j, k)
    ensures k in LowerVars(es) && LowerVars(es)[k] == es[i].1
  {
    var init := es[..|es| - 1];
    if i < |es| - 1 {
      assert NamesKey(init, i, k);
      forall j | i < j < |init|
        ensures !NamesKey(init, j, k)
      {
        assert !NamesKey(es, j, k);
        assert init[j] == es[j];
      }
      LowerVarsLastWins(init, i, k);
      assert !NamesKey(es, |es| - 1, k);
    }
  }

  lemma ToLowerIdempotent(s: string)
    ensures ToLower(ToLower(s)) == ToLower(s)
  {
  }

  /** Every key of the map is already lower case. */
  lemma {:induction false} LowerVarsKeysLower(es: seq<VarEntry>)
    ensures forall k :: k in LowerVars(es) ==> ToLower(k) == k
  {
    if es != [] {
      LowerVarsKeysLower(es[..|es| - 1]);
      var e := es[|es| - 1];
      if e.0.Some? {
        ToLowerIdempotent(e.0.value);
      }
    }
  }

  // ---------------------------------------------------------------------
  // The constructor

  /** The checks in the order the constructor makes them. */
  function NewEqpRuntime(eqpId: Option<string>, mode: Option<Mode>, endpointId: Option<string>,
                         endpointAddress: Option<HostPort>, passiveMaxConn: int,
                         socketType: Option<SocketType>, profileId: Option<string>,
                         profile: Option<Profile>, waitTimeoutSec: int, handshakeTimeoutSec: int,
                         vars: Option<seq<VarEntry>>): (r: Result<EqpRuntime>)
    ensures r.Ok? <==>
      && RequireNotBlank(eqpId).Ok? && mode.Some? && RequireNotBlank(endpointId).Ok?
      && endpointAddress.Some? && socketType.Some? && RequireNotBlank(profileId).Ok? && profile.Some?
    ensures RequireNotBlank(eqpId).Err? ==> r == Err(IllegalArgument)
    ensures RequireNotBlank(eqpId).Ok? && mode.None? ==> r == Err(NullPointer)
    ensures RequireNotBlank(eqpId).Ok? && mode.Some? && RequireNotBlank(endpointId).Err? ==> r == Err(IllegalArgument)
    ensures RequireNotBlank(eqpId).Ok? && mode.Some? && RequireNotBlank(endpointId).Ok?
            && (endpointAddress.None? || socketType.None?)
            ==> r == Err(NullPointer)
    ensures RequireNotBlank(eqpId).Ok? && mode.Some? && RequireNotBlank(endpointId).Ok?
            && endpointAddress.Some? && socketType.Some? && RequireNotBlank(profileId).Err?
            ==> r == Err(IllegalArgument)
    ensures RequireNotBlank(eqpId).Ok? && mode.Some? && RequireNotBlank(endpointId).Ok?
            && endpointAddress.Some? && socketType.Some? && RequireNotBlank(profileId).Ok? && profile.None?
            ==> r == Err(NullPointer)
    ensures r.Err? ==> r.error in {IllegalArgument, NullPointer}
    ensures r.Ok? ==>
      && r.value.eqpId == Trim(eqpId.value) && r.value.eqpId != []
      && r.value.endpointId == Trim(endpointId.value) && r.value.endpointId != []
      && r.value.profileId == Trim(profileId.value) && r.value.profileId != []
      && r.value.mode == mode.value && r.value.endpointAddress == endpointAddress.value
      && r.value.socketType == socketType.value && r.value.profile == profile.value
      && r.value.passiveMaxConn == passiveMaxConn
      && r.value.waitTimeoutSec == waitTimeoutSec && r.value.handshakeTimeoutSec == handshakeTimeoutSec
      && r.value.vars == VarsOf(vars)
  {
    var id := RequireNotBlank(eqpId);
    if id.Err? then Err(id.error)
    else if mode.None? then Err(NullPointer)
    else
      var ep := RequireNotBlank(endpointId);
      if ep.Err? then Err(ep.error)
      else if endpointAddress.None? || socketType.None? then Err(NullPointer)
      else
        var pid := RequireNotBlank(profileId);
        if pid.Err? then Err(pid.error)
        else if profile.None? then Err(NullPointer)
        else Ok(EqpRuntime(id.value, mode.value, ep.value, endpointAddress.value, passiveMaxConn,
                           socketType.value, pid.value, profile.value, waitTimeoutSec,
                           handshakeTimeoutSec, VarsOf(vars)))
  }
}
