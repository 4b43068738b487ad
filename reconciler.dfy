/**
 * The REG-conditionals reconciler of the PCR test case: before the PPA
 * reference model runs, every registration request must carry an
 * `installationParam` with the seven required names, taken either from the
 * request itself or from the pre-loaded conditional records.
 */
module Reconciler {
  import opened Records

  /** The distinct configuration errors the reconciler raises. */
  datatype ConfigError =
    | NoInstallParamInConditional
    | WrongConditional
    | ConditionalMissingRequired(seen: Record)
    | DeviceMissingRequired(seen: Record)

  datatype Outcome = Ok | Fail(error: ConfigError)

  /** One request after processing, and whether processing raised. */
  datatype Step = Step(device: Record, outcome: Outcome)

  /** The whole request list after a call (updated in place, so partial on failure), and the outcome. */
  datatype Run = Run(devices: seq<Record>, outcome: Outcome)

  /** The fields a registration request must have for the reconciler not to raise a KeyError. */
  predicate DeviceSchema(d: Record)
  {
    && (InstallationParam in d ==> d[InstallationParam].JObj?)
    && (InstallationParam !in d ==> FccId in d && CbsdSerialNumber in d)
  }

  /** The fields a conditional record must have for the reconciler not to raise a KeyError. */
  predicate ConditionalSchema(c: Record)
  {
    && FccId in c && CbsdSerialNumber in c && CbsdCategory in c
    && (InstallationParam in c ==> c[InstallationParam].JObj?)
  }

  predicate ValidDevices(devs: seq<Record>)
  {
    forall j :: 0 <= j < |devs| ==> DeviceSchema(devs[j])
  }

  predicate ValidConditionals(conds: seq<Record>)
  {
    forall c :: c in conds ==> ConditionalSchema(c)
  }

  predicate HasIds(d: Record)
  {
    FccId in d && CbsdSerialNumber in d
  }

  /** The conditional names the device by the same FCC id and serial number. */
  predicate SameDevice(c: Record, d: Record)
    requires HasIds(c) && HasIds(d)
  {
    c[FccId] == d[FccId] && c[CbsdSerialNumber] == d[CbsdSerialNumber]
  }

  /** A conditional record that passes all three checks for device `d`. */
  predicate Acceptable(c: Record, d: Record)
    requires ConditionalSchema(c) && HasIds(d)
  {
    && InstallationParam in c
    && SameDevice(c, d)
    && Complete(c[InstallationParam].fields)
  }

  /** Every key other than `installationParam` and `cbsdCategory` is as in `d`. */
  ghost predicate OthersUnchanged(r: Record, d: Record)
  {
    forall k :: k != InstallationParam && k != CbsdCategory ==>
      (k in r <==> k in d) && (k in d ==> r[k] == d[k])
  }

  /**
   * `r` is `d` filled from conditional `c`: the seven required values of
   * `c`'s installationParam as the new installationParam, `c`'s category as
   * the new cbsdCategory, and nothing else changed.
   */
  ghost predicate FilledFrom(r: Record, d: Record, c: Record)
  {
    && InstallationParam in c && c[InstallationParam].JObj?
    && Complete(c[InstallationParam].fields) && CbsdCategory in c
    && r.Keys == d.Keys + {InstallationParam, CbsdCategory}
    && r[InstallationParam] == JObj(Project(c[InstallationParam].fields))
    && r[CbsdCategory] == c[CbsdCategory]
    && OthersUnchanged(r, d)
  }

  // ---------------------------------------------------------------------
  // Specification functions
  // ---------------------------------------------------------------------

  /** One pass of the inner loop: check conditional `c` against device `d`, and fill `d` from it. */
  function ApplyConditional(d: Record, c: Record): (r: Step)
    requires HasIds(d) && ConditionalSchema(c)
    ensures r.outcome.Ok? <==> Acceptable(c, d)
    ensures r.outcome.Fail? ==> r.device == d
    ensures r.outcome == Fail(NoInstallParamInConditional) <==> InstallationParam !in c
    ensures r.outcome == Fail(WrongConditional) <==> InstallationParam in c && !SameDevice(c, d)
    ensures r.outcome.Fail? && r.outcome.error.ConditionalMissingRequired? <==>
              InstallationParam in c && SameDevice(c, d) && !Complete(c[InstallationParam].fields)
    ensures r.outcome.Fail? && r.outcome.error.ConditionalMissingRequired? ==>
              r.outcome.error.seen == c[InstallationParam].fields
    ensures r.outcome.Ok? ==> FilledFrom(r.device, d, c)
  {
    if InstallationParam !in c then Step(d, Fail(NoInstallParamInConditional))
    else if !SameDevice(c, d) then Step(d, Fail(WrongConditional))
    else
      var ip := c[InstallationParam].fields;
      if !Complete(ip) then Step(d, Fail(ConditionalMissingRequired(ip)))
      else Step(d[InstallationParam := JObj(Project(ip))][CbsdCategory := c[CbsdCategory]], Ok)
  }

  /** The inner loop: visit every conditional in order, stopping at the first that raises. */
  function FillFromConditionals(d: Record, conds: seq<Record>): (r: Step)
    requires HasIds(d)
    requires ValidConditionals(conds)
    ensures OthersUnchanged(r.device, d)
    ensures HasIds(r.device)
    decreases |conds|
  {
    if conds == [] then Step(d, Ok)
    else
      var s := ApplyConditional(d, conds[0]);
      if s.outcome.Fail? then s else FillFromConditionals(s.device, conds[1..])
  }

  /** One iteration of the outer loop. */
  function DeviceStep(d: Record, conds: seq<Record>): (r: Step)
    requires DeviceSchema(d)
    requires ValidConditionals(conds)
    ensures OthersUnchanged(r.device, d)
    ensures InstallationParam in d ==> r.device == d
    ensures InstallationParam in d ==>
              (r.outcome == Ok <==> Complete(d[InstallationParam].fields)) &&
              (r.outcome.Fail? ==> r.outcome == Fail(DeviceMissingRequired(d[InstallationParam].fields)))
  {
    if InstallationParam !in d then FillFromConditionals(d, conds)
    else
      var ip := d[InstallationParam].fields;
      if Complete(ip) then Step(d, Ok) else Step(d, Fail(DeviceMissingRequired(ip)))
  }

  /**
   * What each request's own iteration would give. A request's iteration
   * depends only on that request and the conditionals, so the whole call is
   * these results taken in order up to the first failure (Assemble).
   */
  function Steps(devs: seq<Record>, conds: seq<Record>): (r: seq<Step>)
    requires ValidDevices(devs)
    requires ValidConditionals(conds)
    ensures |r| == |devs|
    ensures forall j :: 0 <= j < |devs| ==> r[j] == DeviceStep(devs[j], conds)
  {
    seq(|devs|, j requires 0 <= j < |devs| => DeviceStep(devs[j], conds))
  }

  /**
   * The outer loop over precomputed iteration results: each request is
   * replaced by its result until one fails; that one keeps what its
   * iteration wrote, and the requests after it are untouched.
   */
  function Assemble(devs: seq<Record>, steps: seq<Step>): (r: Run)
    requires |steps| == |devs|
    ensures |r.devices| == |devs|
  {
    if devs == [] then Run([], Ok)
    else if steps[0].outcome.Fail? then Run([steps[0].device] + devs[1..], steps[0].outcome)
    else Prepend([steps[0].device], Assemble(devs[1..], steps[1..]))
  }

  function Prepend(p: seq<Record>, r: Run): Run
  {
    Run(p + r.devices, r.outcome)
  }

  /** assertRegConditionalsForPpaRefModel as a function of the request list and the conditional list. */
  function Reconciled(devs: seq<Record>, conds: seq<Record>): (r: Run)
    requires ValidDevices(devs)
    requires ValidConditionals(conds)
    ensures |r.devices| == |devs|
  {
    Assemble(devs, Steps(devs, conds))
  }

  // ---------------------------------------------------------------------
  // The imperative reconciler
  // ---------------------------------------------------------------------

  /** Builds the new installationParam key by key: the seven required names and their values, nothing else. */
  method CopyRequired(ip: Record) returns (install: Record)
    requires Complete(ip)
    ensures install.Keys == RequiredSet
    ensures forall n :: n in install ==> n in ip && install[n] == ip[n]
  {
    CompleteMeans(ip);
    install := map[];
    install := install["antennaAzimuth" := ip["antennaAzimuth"]];
    install := install["longitude" := ip["longitude"]];
    install := install["latitude" := ip["latitude"]];
    install := install["antennaGain" := ip["antennaGain"]];
    install := install["indoorDeployment" := ip["indoorDeployment"]];
    install := install["antennaBeamwidth" := ip["antennaBeamwidth"]];
    install := install["height" := ip["height"]];
  }

  /**
   * The inner loop for request `i`, which lacks installationParam: visits
   * every conditional in order, raising on the first that fails a check and
   * otherwise overwriting the request's installationParam and cbsdCategory.
   */
  method FillDevice(devices: array<Record>, i: nat, conditionals: seq<Record>) returns (outcome: Outcome)
    requires i < devices.Length && HasIds(devices[i])
    requires ValidConditionals(conditionals)
    modifies devices
    ensures Step(devices[i], outcome) == FillFromConditionals(old(devices[i]), conditionals)
    ensures forall k :: 0 <= k < devices.Length && k != i ==> devices[k] == old(devices[k])
  {
    var j := 0;
    while j < |conditionals|
      invariant 0 <= j <= |conditionals|
      invariant forall k :: 0 <= k < devices.Length && k != i ==> devices[k] == old(devices[k])
      invariant HasIds(devices[i])
      invariant FillFromConditionals(old(devices[i]), conditionals) == FillFromConditionals(devices[i], conditionals[j..])
    {
      assert conditionals[j..][0] == conditionals[j] && conditionals[j..][1..] == conditionals[j + 1..];
      var c := conditionals[j];
      assert c in conditionals;
      if InstallationParam !in c {
        return Fail(NoInstallParamInConditional);
      }
      if !(c[FccId] == devices[i][FccId] && c[CbsdSerialNumber] == devices[i][CbsdSerialNumber]) {
        return Fail(WrongConditional);
      }
      var ip := c[InstallationParam].fields;
      if AnyMissing(ip, RequiredParams) {
        return Fail(ConditionalMissingRequired(ip));
      }
      var install := CopyRequired(ip);
      assert install == Project(ip);
      devices[i] := devices[i][InstallationParam := JObj(install)];
      devices[i] := devices[i][CbsdCategory := c[CbsdCategory]];
      j := j + 1;
    }
    outcome := Ok;
  }

  /**
   * The body of the outer loop for request `i`: a request carrying
   * installationParam is only checked; one lacking it is filled from the
   * conditionals.
   */
  method ProcessDevice(devices: array<Record>, i: nat, conditionals: seq<Record>) returns (outcome: Outcome)
    requires i < devices.Length && DeviceSchema(devices[i])
    requires ValidConditionals(conditionals)
    modifies devices
    ensures Step(devices[i], outcome) == DeviceStep(old(devices[i]), conditionals)
    ensures forall k :: 0 <= k < devices.Length && k != i ==> devices[k] == old(devices[k])
  {
    if InstallationParam !in devices[i] {
      outcome := FillDevice(devices, i, conditionals);
    } else if AnyMissing(devices[i][InstallationParam].fields, RequiredParams) {
      outcome := Fail(DeviceMissingRequired(devices[i][InstallationParam].fields));
    } else {
      outcome := Ok;
    }
  }

  /**
   * The reconciler itself: walks the request list, and for each request
   * either checks its own installationParam or fills it from the
   * conditionals, writing into the request in place. It stops at the first
   * error, keeping the updates already made.
   */
  method ReconcileConditionals(devices: array<Record>, conditionals: seq<Record>) returns (outcome: Outcome)
    requires ValidDevices(devices[..])
    requires ValidConditionals(conditionals)
    modifies devices
    ensures Run(devices[..], outcome) == Reconciled(old(devices[..]), conditionals)
  {
    ghost var initial := devices[..];
    ghost var steps := Steps(initial, conditionals);
    var i := 0;
    assert initial[0..] == initial && steps[0..] == steps && devices[..0] == [];
    while i < devices.Length
      invariant 0 <= i <= devices.Length
      invariant devices[i..] == initial[i..]
      invariant Reconciled(initial, conditionals) == Prepend(devices[..i], Assemble(initial[i..], steps[i..]))
    {
      ghost var done := devices[..i];
      outcome := ProcessDevice(devices, i, conditionals);
      assert devices[..i] == done && devices[i + 1..] == initial[i + 1..];
      AssembleAdvance(initial, steps, i, devices[..], Reconciled(initial, conditionals));
      if outcome.Fail? {
        return;
      }
      i := i + 1;
    }
    assert devices[..i] == devices[..];
    outcome := Ok;
  }

  /**
   * One step of the outer loop: once request `i` has been replaced in
   * place by its iteration's result (giving `now`), the loop invariant of
   * ReconcileConditionals moves past it, or the call ends with the list as
   * it stands.
   */
  lemma AssembleAdvance(devs: seq<Record>, steps: seq<Step>, i: nat, now: seq<Record>, target: Run)
    requires |steps| == |devs| == |now| && i < |devs|
    requires target == Prepend(now[..i], Assemble(devs[i..], steps[i..]))
    requires now[i + 1..] == devs[i + 1..] && now[i] == steps[i].device
    ensures steps[i].outcome.Fail? ==> target == Run(now, steps[i].outcome)
    ensures steps[i].outcome.Ok? ==> target == Prepend(now[..i + 1], Assemble(devs[i + 1..], steps[i + 1..]))
  {
    assert devs[i..][1..] == devs[i + 1..] && steps[i..][1..] == steps[i + 1..];
    assert now == now[..i] + [now[i]] + devs[i + 1..];
    if steps[i].outcome.Ok? {
      var rest := Assemble(devs[i + 1..], steps[i + 1..]);
      assert now[..i + 1] == now[..i] + [now[i]];
      assert now[..i] + ([now[i]] + rest.devices) == now[..i + 1] + rest.devices;
    }
  }

  // ---------------------------------------------------------------------
  // The inner loop (one request lacking installationParam)
  // ---------------------------------------------------------------------

  /** The inner loop succeeds exactly when every conditional record passes all three checks for the device. */
  lemma {:induction false} FillOutcome(d: Record, conds: seq<Record>)
    requires HasIds(d)
    requires ValidConditionals(conds)
    ensures FillFromConditionals(d, conds).outcome.Ok? <==> forall c :: c in conds ==> Acceptable(c, d)
    decreases |conds|
  {
    if conds != [] {
      var s := ApplyConditional(d, conds[0]);
      if s.outcome.Ok? {
        FillOutcome(s.device, conds[1..]);
        assert forall c :: c in conds[1..] ==> (Acceptable(c, s.device) <==> Acceptable(c, d));
        assert forall c :: c in conds ==> c == conds[0] || c in conds[1..];
      }
    }
  }

  /**
   * The first conditional that fails a check decides the error, and the
   * device is left as the conditionals before it made it: the record that
   * fails does not update it, the earlier ones already have.
   */
  lemma {:induction false} FillFirstFailure(d: Record, conds: seq<Record>, k: nat)
    requires HasIds(d)
    requires ValidConditionals(conds)
    requires k < |conds|
    requires forall j :: 0 <= j < k ==> Acceptable(conds[j], d)
    requires !Acceptable(conds[k], d)
    ensures FillFromConditionals(d, conds).outcome == ApplyConditional(d, conds[k]).outcome
    ensures FillFromConditionals(d, conds).device == FillFromConditionals(d, conds[..k]).device
    decreases k
  {
    var s := ApplyConditional(d, conds[0]);
    if k > 0 {
      var rest := conds[1..];
      assert conds[..k][1..] == rest[..k - 1];
      assert forall j :: 0 <= j < k - 1 ==> rest[j] == conds[j + 1];
      FillFirstFailure(s.device, rest, k - 1);
      assert rest[k - 1] == conds[k];
    }
  }

  /**
   * After a successful inner loop over a non-empty list, the device is the
   * original filled from the LAST conditional: its seven values and its
   * category, with every other key untouched.
   */
  lemma {:induction false} FillResult(d: Record, conds: seq<Record>)
    requires HasIds(d)
    requires ValidConditionals(conds)
    requires |conds| > 0
    requires FillFromConditionals(d, conds).outcome.Ok?
    ensures FilledFrom(FillFromConditionals(d, conds).device, d, conds[|conds| - 1])
    decreases |conds|
  {
    var s := ApplyConditional(d, conds[0]);
    if |conds| > 1 {
      FillResult(s.device, conds[1..]);
      assert conds[1..][|conds| - 2] == conds[|conds| - 1];
    }
  }

  /** When the inner loop leaves an installationParam on a device, it is a JSON object. */
  lemma {:induction false} FillKeepsParamShape(d: Record, conds: seq<Record>)
    requires HasIds(d) && (InstallationParam in d ==> d[InstallationParam].JObj?)
    requires ValidConditionals(conds)
    ensures InstallationParam in FillFromConditionals(d, conds).device ==>
              FillFromConditionals(d, conds).device[InstallationParam].JObj?
    decreases |conds|
  {
    if conds != [] {
      var s := ApplyConditional(d, conds[0]);
      if s.outcome.Ok? {
        FillKeepsParamShape(s.device, conds[1..]);
      }
    }
  }

  /** One request's iteration writes only installationParam and cbsdCategory, and leaves the request well-formed. */
  lemma DeviceStepShape(d: Record, conds: seq<Record>)
    requires DeviceSchema(d)
    requires ValidConditionals(conds)
    ensures OthersUnchanged(DeviceStep(d, conds).device, d)
    ensures DeviceSchema(DeviceStep(d, conds).device)
  {
    if InstallationParam !in d {
      FillKeepsParamShape(d, conds);
    }
  }

  /** After an iteration that passed, the request passes again unchanged. */
  lemma DeviceSettled(d: Record, conds: seq<Record>)
    requires DeviceSchema(d)
    requires ValidConditionals(conds)
    requires DeviceStep(d, conds).outcome.Ok?
    ensures DeviceSchema(DeviceStep(d, conds).device)
    ensures DeviceStep(DeviceStep(d, conds).device, conds) == Step(DeviceStep(d, conds).device, Ok)
  {
    DeviceStepShape(d, conds);
    if InstallationParam !in d && conds != [] {
      FillResult(d, conds);
    }
  }

  // ---------------------------------------------------------------------
  // The outer loop over iteration results
  // ---------------------------------------------------------------------

  /** The walk succeeds exactly when every iteration passed, and then each request is its iteration's result. */
  lemma {:induction false} AssembleOk(devs: seq<Record>, steps: seq<Step>)
    requires |steps| == |devs|
    ensures Assemble(devs, steps).outcome.Ok? <==> forall j :: 0 <= j < |steps| ==> steps[j].outcome.Ok?
    ensures Assemble(devs, steps).outcome.Ok? ==>
              forall j :: 0 <= j < |devs| ==> Assemble(devs, steps).devices[j] == steps[j].device
  {
    if devs != [] {
      AssembleOk(devs[1..], steps[1..]);
      assert forall j :: 1 <= j < |steps| ==> steps[1..][j - 1] == steps[j];
    }
  }

  /** While every earlier iteration passed, request `j` of the result is its own iteration's result. */
  lemma {:induction false} AssembleAt(devs: seq<Record>, steps: seq<Step>, j: nat)
    requires |steps| == |devs| && j < |devs|
    requires forall i :: 0 <= i < j ==> steps[i].outcome.Ok?
    ensures Assemble(devs, steps).devices[j] == steps[j].device
  {
    if j > 0 {
      assert steps[0].outcome.Ok?;
      assert forall i :: 0 <= i < j - 1 ==> steps[1..][i] == steps[i + 1];
      AssembleAt(devs[1..], steps[1..], j - 1);
    }
  }

  /** When iteration `k` is the first to fail, its error is the outcome and the requests after it are untouched. */
  lemma {:induction false} AssembleStops(devs: seq<Record>, steps: seq<Step>, k: nat)
    requires |steps| == |devs| && k < |devs|
    requires forall i :: 0 <= i < k ==> steps[i].outcome.Ok?
    requires steps[k].outcome.Fail?
    ensures Assemble(devs, steps).outcome == steps[k].outcome
    ensures Assemble(devs, steps).devices[k + 1..] == devs[k + 1..]
  {
    if k == 0 {
      assert Assemble(devs, steps).devices[1..] == devs[1..];
    } else {
      assert steps[0].outcome.Ok?;
      assert forall i :: 0 <= i < k - 1 ==> steps[1..][i] == steps[i + 1];
      AssembleStops(devs[1..], steps[1..], k - 1);
      var tail := Assemble(devs[1..], steps[1..]);
      assert Assemble(devs, steps).devices[k + 1..] == tail.devices[k..];
    }
  }

  /** Every request of the result is either untouched or its iteration's result. */
  lemma {:induction false} AssembleElements(devs: seq<Record>, steps: seq<Step>)
    requires |steps| == |devs|
    ensures forall j :: 0 <= j < |devs| ==>
              Assemble(devs, steps).devices[j] == steps[j].device || Assemble(devs, steps).devices[j] == devs[j]
  {
    if devs != [] {
      AssembleElements(devs[1..], steps[1..]);
      var r := Assemble(devs, steps);
      if steps[0].outcome.Ok? {
        assert forall j :: 1 <= j < |devs| ==>
          r.devices[j] == Assemble(devs[1..], steps[1..]).devices[j - 1] && steps[1..][j - 1] == steps[j] && devs[1..][j - 1] == devs[j];
      } else {
        assert forall j :: 1 <= j < |devs| ==> r.devices[j] == devs[j];
      }
    }
  }

  // ---------------------------------------------------------------------
  // The whole request list
  // ---------------------------------------------------------------------

  /** The call succeeds exactly when every request passes its own iteration, and then each request is that iteration's result. */
  lemma ReconciledSucceeds(devs: seq<Record>, conds: seq<Record>)
    requires ValidDevices(devs)
    requires ValidConditionals(conds)
    ensures Reconciled(devs, conds).outcome.Ok? <==>
              forall j :: 0 <= j < |devs| ==> DeviceStep(devs[j], conds).outcome.Ok?
    ensures Reconciled(devs, conds).outcome.Ok? ==>
              forall j :: 0 <= j < |devs| ==> Reconciled(devs, conds).devices[j] == DeviceStep(devs[j], conds).device
  {
    AssembleOk(devs, Steps(devs, conds));
  }

  /**
   * Failure is not atomic: when request `k` is the first to fail, its
   * error is the outcome, the requests before it keep their updates,
   * request `k` keeps whatever its own iteration had written, and the
   * requests after it are untouched.
   */
  lemma ReconciledFailsAt(devs: seq<Record>, conds: seq<Record>, k: nat)
    requires ValidDevices(devs)
    requires ValidConditionals(conds)
    requires k < |devs|
    requires forall j :: 0 <= j < k ==> DeviceStep(devs[j], conds).outcome.Ok?
    requires DeviceStep(devs[k], conds).outcome.Fail?
    ensures Reconciled(devs, conds).outcome == DeviceStep(devs[k], conds).outcome
    ensures forall j :: 0 <= j <= k ==> Reconciled(devs, conds).devices[j] == DeviceStep(devs[j], conds).device
    ensures Reconciled(devs, conds).devices[k + 1..] == devs[k + 1..]
  {
    var steps := Steps(devs, conds);
    AssembleStops(devs, steps, k);
    forall j | 0 <= j <= k
      ensures Reconciled(devs, conds).devices[j] == DeviceStep(devs[j], conds).device
    {
      AssembleAt(devs, steps, j);
    }
  }

  /** A request that already carries installationParam is never modified, whatever the outcome. */
  lemma InlineDevicesUnchanged(devs: seq<Record>, conds: seq<Record>)
    requires ValidDevices(devs)
    requires ValidConditionals(conds)
    ensures forall j :: 0 <= j < |devs| && InstallationParam in devs[j] ==> Reconciled(devs, conds).devices[j] == devs[j]
  {
    AssembleElements(devs, Steps(devs, conds));
  }

  /** Only `installationParam` and `cbsdCategory` are ever written; the list keeps its length and order. */
  lemma OnlyTwoKeysWritten(devs: seq<Record>, conds: seq<Record>)
    requires ValidDevices(devs)
    requires ValidConditionals(conds)
    ensures |Reconciled(devs, conds).devices| == |devs|
    ensures forall j :: 0 <= j < |devs| ==> OthersUnchanged(Reconciled(devs, conds).devices[j], devs[j])
  {
    AssembleElements(devs, Steps(devs, conds));
    forall j | 0 <= j < |devs|
      ensures OthersUnchanged(Reconciled(devs, conds).devices[j], devs[j])
    {
      DeviceStepShape(devs[j], conds);
    }
  }

  /** Every request of the result still has the fields the reconciler reads. */
  lemma ReconciledValid(devs: seq<Record>, conds: seq<Record>)
    requires ValidDevices(devs)
    requires ValidConditionals(conds)
    ensures ValidDevices(Reconciled(devs, conds).devices)
  {
    AssembleElements(devs, Steps(devs, conds));
    forall j | 0 <= j < |devs|
      ensures DeviceSchema(Reconciled(devs, conds).devices[j])
    {
      DeviceStepShape(devs[j], conds);
    }
  }

  /**
   * With no conditional records nothing is written: a request lacking
   * installationParam passes as it is, and the call fails only on an
   * incomplete inline installationParam.
   */
  lemma EmptyConditionals(devs: seq<Record>)
    requires ValidDevices(devs)
    ensures Reconciled(devs, []).devices == devs
    ensures Reconciled(devs, []).outcome.Ok? <==>
              forall j :: 0 <= j < |devs| && InstallationParam in devs[j] ==> Complete(devs[j][InstallationParam].fields)
  {
    AssembleElements(devs, Steps(devs, []));
    AssembleOk(devs, Steps(devs, []));
  }

  /**
   * Idempotence: a second call after a successful one succeeds and changes
   * nothing, since every request now takes the read-only branch (or, with
   * no conditionals, passes through as before).
   */
  lemma ReconcileIdempotent(devs: seq<Record>, conds: seq<Record>)
    requires ValidDevices(devs)
    requires ValidConditionals(conds)
    requires Reconciled(devs, conds).outcome.Ok?
    ensures ValidDevices(Reconciled(devs, conds).devices)
    ensures Reconciled(Reconciled(devs, conds).devices, conds) == Run(Reconciled(devs, conds).devices, Ok)
  {
    ReconciledValid(devs, conds);
    ReconciledSucceeds(devs, conds);
    var once := Reconciled(devs, conds).devices;
    forall j | 0 <= j < |devs|
      ensures DeviceStep(once[j], conds) == Step(once[j], Ok)
    {
      DeviceSettled(devs[j], conds);
    }
    var twice := Reconciled(once, conds);
    AssembleOk(once, Steps(once, conds));
    assert twice.devices == once;
  }

  /**
   * The whole acceptance condition: the call succeeds exactly when every
   * inline installationParam is complete and every conditional record
   * passes all three checks for every request that lacks one.
   */
  lemma SucceedsExactly(devs: seq<Record>, conds: seq<Record>)
    requires ValidDevices(devs)
    requires ValidConditionals(conds)
    ensures Reconciled(devs, conds).outcome.Ok? <==>
              && (forall j :: 0 <= j < |devs| && InstallationParam in devs[j] ==>
                    Complete(devs[j][InstallationParam].fields))
              && (forall j, c :: 0 <= j < |devs| && InstallationParam !in devs[j] && c in conds ==>
                    Acceptable(c, devs[j]))
  {
    ReconciledSucceeds(devs, conds);
    forall j | 0 <= j < |devs|
      ensures DeviceStep(devs[j], conds).outcome.Ok? <==>
                if InstallationParam in devs[j] then Complete(devs[j][InstallationParam].fields)
                else forall c :: c in conds ==> Acceptable(c, devs[j])
    {
      if InstallationParam !in devs[j] {
        FillOutcome(devs[j], conds);
      }
    }
  }

  /**
   * Because any record naming another device raises, two requests that
   * lack installationParam and belong to different devices can never both
   * be served: with at least one conditional record the call fails.
   */
  lemma DistinctDevicesFail(devs: seq<Record>, conds: seq<Record>, i: nat, j: nat)
    requires ValidDevices(devs)
    requires ValidConditionals(conds)
    requires i < |devs| && j < |devs| && |conds| > 0
    requires InstallationParam !in devs[i] && InstallationParam !in devs[j]
    requires devs[i][FccId] != devs[j][FccId]
    ensures Reconciled(devs, conds).outcome.Fail?
  {
    SucceedsExactly(devs, conds);
    assert conds[0] in conds;
  }
}
