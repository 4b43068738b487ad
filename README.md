# PCR registration-conditionals reconciler, in Dafny

This project models the part of the WINNF PCR-1 test case that prepares
registration requests for the PPA reference model. The PPA reference model
needs every CBSD registration request to carry an `installationParam`
object. Category B devices have theirs removed from the request and
pre-loaded as REG-conditional records instead.

The reconciler (`assertRegConditionalsForPpaRefModel`) walks the request
list in order:

- A request that has an `installationParam` is only checked. All seven
  names of `CONDITIONAL_PARAMS_REQUIRED` must be present, or it raises.
- A request that lacks an `installationParam` is compared with EVERY
  conditional record, in order. For each record:
  - if the record lacks `installationParam`, the call raises;
  - if the record names a different `fccId` or `cbsdSerialNumber`, the call
    raises;
  - if the record's `installationParam` lacks one of the seven names, the
    call raises;
  - otherwise the request gets a new `installationParam` holding exactly
    those seven values, and the record's `cbsdCategory`.
- Updates happen in place and are not rolled back when a later request
  raises.

The configuration generator does the opposite:
- it builds a conditional record from a Category B device;
- it deletes `installationParam`, `cbsdCategory`, `airInterface` and
  `measCapability` from the device.

The model has three modules:

- `Records` (records.dfy): JSON values (`Json`), dictionaries (`Record`
  = `map<string, Json>`), the seven required names, the completeness test
  and the seven-field copy.
- `Reconciler` (reconciler.dfy): the reconciler.
  - Specification functions for one conditional (`ApplyConditional`), the
    inner loop (`FillFromConditionals`), one request (`DeviceStep`) and the
    whole call (`Reconciled`). The call returns the list as it stands
    afterwards, including the partial updates left by a failure, together
    with the outcome.
  - A request's iteration depends only on that request and the conditional
    records. So `Reconciled` is stated as the per-request results (`Steps`),
    taken in order up to the first failure (`Assemble`).
  - The imperative methods: `ReconcileConditionals` over an
    `array<Record>`, written in place; `ProcessDevice` is the outer loop's
    body; `FillDevice` is the inner loop; `CopyRequired` builds the new
    `installationParam` key by key.
  - The lemmas about the specification functions.
- `ConfigSplit` (split.dfy): the device/conditional split and the round
  trip through the reconciler.

Each Python exception is one `ConfigError` value:

| error | raised at |
|---|---|
| `NoInstallParamInConditional` | `:220-221` |
| `WrongConditional` | `:224-225` |
| `ConditionalMissingRequired` | `:233-236` |
| `DeviceMissingRequired` | `:262-264` |

The last two carry the `installationParam` dictionary that their messages
print.

The docstring (`:197-198`) speaks of taking "the corresponding values"
from the conditional data. The code does not look for the corresponding
record: it raises on any record that names another device. The model
follows the code. `SucceedsExactly` and `DistinctDevicesFail` state the
consequence: once there is at least one conditional record, two
parameter-less requests for different devices always make the call fail.

The docstring and comments (`:209-211`, `:258`) speak of Category A and B
devices. The code never reads the category to decide anything: it applies
the inline check to every request that carries an `installationParam`,
and it only copies `cbsdCategory` when filling. The model does the same.

## Model

| member | source | states |
|---|---|---|
| `Records.AnyMissing` | src/harness/testcases/WINNF_FT_S_PCR_testcase.py:231-232 | true exactly when some listed name is not a key of the installationParam |
| `Records.CompleteMeans` | src/harness/testcases/WINNF_FT_S_PCR_testcase.py:64-65 | an installationParam passes the check exactly when all seven names of CONDITIONAL_PARAMS_REQUIRED are keys |
| `Records.Project` | src/harness/testcases/WINNF_FT_S_PCR_testcase.py:237-250 | the installationParam built from a complete one has exactly the seven required keys, each with the original value, so extra keys are dropped |
| `Reconciler.CopyRequired` | src/harness/testcases/WINNF_FT_S_PCR_testcase.py:237-250 | building install_params key by key gives exactly the seven required keys with the conditional's values |
| `Reconciler.ApplyConditional` | src/harness/testcases/WINNF_FT_S_PCR_testcase.py:220-256 | the checks on one conditional, in order: a missing installationParam gives NoInstallParamInConditional; a different fccId or serial gives WrongConditional; a missing required name gives ConditionalMissingRequired, carrying the record's installationParam. A failing record leaves the device unchanged; a passing one fills it with the seven values and the category, and nothing else changes |
| `Reconciler.FillFromConditionals` | src/harness/testcases/WINNF_FT_S_PCR_testcase.py:217-256 | visiting the conditionals writes only installationParam and cbsdCategory, and keeps the device's fccId and serial |
| `Reconciler.DeviceStep` | src/harness/testcases/WINNF_FT_S_PCR_testcase.py:216-264 | a request that has an installationParam is returned unchanged; it passes exactly when that object is complete and otherwise fails with DeviceMissingRequired carrying it. In both branches no key other than installationParam and cbsdCategory changes |
| `Reconciler.Assemble` | src/harness/testcases/WINNF_FT_S_PCR_testcase.py:215-264 | walking the iteration results keeps the list's length; AssembleOk, AssembleAt, AssembleStops and AssembleElements state what it holds |
| `Reconciler.Reconciled` | src/harness/testcases/WINNF_FT_S_PCR_testcase.py:215-264 | the whole call keeps the request list's length; its outcome and contents are stated by the lemmas below |
| `Reconciler.FillDevice` | src/harness/testcases/WINNF_FT_S_PCR_testcase.py:217-256 | the inner loop leaves the request and the outcome exactly as FillFromConditionals says, and touches no other request |
| `Reconciler.ProcessDevice` | src/harness/testcases/WINNF_FT_S_PCR_testcase.py:216-264 | one outer iteration leaves the request and the outcome as DeviceStep says, and touches no other request |
| `Reconciler.ReconcileConditionals` | src/harness/testcases/WINNF_FT_S_PCR_testcase.py:188-264 | the in-place call leaves the array and returns the outcome exactly as Reconciled says, including the partial state after a failure |
| `Reconciler.AssembleAdvance` | src/harness/testcases/WINNF_FT_S_PCR_testcase.py:215-264 | after request i is replaced by its iteration's result, either the call ends with the list as it stands (failure) or the walk continues from request i+1 with the first i+1 requests done |
| `Reconciler.FillOutcome` | src/harness/testcases/WINNF_FT_S_PCR_testcase.py:217-236 | the inner loop succeeds exactly when every conditional has an installationParam, names the same device and holds all seven names |
| `Reconciler.FillFirstFailure` | src/harness/testcases/WINNF_FT_S_PCR_testcase.py:217-236 | the first conditional that fails a check decides the error kind. The device is left as the records before it made it: the failing record does not update it |
| `Reconciler.FillResult` | src/harness/testcases/WINNF_FT_S_PCR_testcase.py:237-256 | after a successful inner loop over a non-empty list, the device is filled from the LAST record: its seven values and its cbsdCategory. Every other key is unchanged |
| `Reconciler.FillKeepsParamShape` | src/harness/testcases/WINNF_FT_S_PCR_testcase.py:251-253 | an installationParam left on a device by the inner loop is a JSON object |
| `Reconciler.DeviceStepShape` | src/harness/testcases/WINNF_FT_S_PCR_testcase.py:215-264 | one request's iteration changes no key other than installationParam and cbsdCategory, and leaves the request with the fields the reconciler reads |
| `Reconciler.DeviceSettled` | src/harness/testcases/WINNF_FT_S_PCR_testcase.py:215-264 | a request whose iteration passed passes a second iteration, unchanged: a filled request now takes the inline branch and its installationParam is complete |
| `Reconciler.AssembleOk` | src/harness/testcases/WINNF_FT_S_PCR_testcase.py:215-264 | the walk succeeds exactly when every iteration passed, and then request j is its iteration's result |
| `Reconciler.AssembleAt` | src/harness/testcases/WINNF_FT_S_PCR_testcase.py:215-264 | while every earlier iteration passed, request j of the result is its own iteration's result |
| `Reconciler.AssembleStops` | src/harness/testcases/WINNF_FT_S_PCR_testcase.py:215-264 | when iteration k is the first to fail, the outcome is its error and the requests after k are untouched |
| `Reconciler.AssembleElements` | src/harness/testcases/WINNF_FT_S_PCR_testcase.py:215-264 | every request of the result is either untouched or its own iteration's result |
| `Reconciler.ReconciledSucceeds` | src/harness/testcases/WINNF_FT_S_PCR_testcase.py:215-264 | the call succeeds exactly when every request passes its own step, and then each request is that step's result |
| `Reconciler.ReconciledFailsAt` | src/harness/testcases/WINNF_FT_S_PCR_testcase.py:215-264 | when request k is the first to fail, its error is the outcome. Earlier requests keep their updates, request k keeps its partial update, and later requests are untouched (failure is not atomic) |
| `Reconciler.InlineDevicesUnchanged` | src/harness/testcases/WINNF_FT_S_PCR_testcase.py:257-264 | a request that already has an installationParam is never modified, whatever the outcome |
| `Reconciler.OnlyTwoKeysWritten` | src/harness/testcases/WINNF_FT_S_PCR_testcase.py:251-256 | the list keeps its length and order, and every key other than installationParam and cbsdCategory of every request is as before |
| `Reconciler.ReconciledValid` | src/harness/testcases/WINNF_FT_S_PCR_testcase.py:215-264 | every request of the result, after success or failure, still has the fields the reconciler reads |
| `Reconciler.EmptyConditionals` | src/harness/testcases/WINNF_FT_S_PCR_testcase.py:216-217 | with no conditional records the list is unchanged. The call fails only on an incomplete inline installationParam, so a request lacking one passes through |
| `Reconciler.ReconcileIdempotent` | src/harness/testcases/WINNF_FT_S_PCR_testcase.py:215-264 | after a successful call, a second call on the result succeeds and changes nothing |
| `Reconciler.SucceedsExactly` | src/harness/testcases/WINNF_FT_S_PCR_testcase.py:215-264 | the call succeeds exactly when every inline installationParam is complete and every conditional record passes all three checks for every request lacking one |
| `Reconciler.DistinctDevicesFail` | src/harness/testcases/WINNF_FT_S_PCR_testcase.py:222-225 | with at least one conditional record, two parameter-less requests for devices with different fccIds make the call fail |
| `ConfigSplit.Split` | src/harness/testcases/WINNF_FT_S_PCR_testcase.py:317-329 | the conditional record holds exactly cbsdCategory, fccId, cbsdSerialNumber, airInterface, installationParam and measCapability, copied from the device. The stripped device loses installationParam, cbsdCategory, airInterface and measCapability, and keeps everything else |
| `ConfigSplit.SplitDevice` | src/harness/testcases/WINNF_FT_S_PCR_testcase.py:317-329 | building the record and then deleting the four keys one by one gives the split |
| `ConfigSplit.StrippedStep` | src/harness/testcases/WINNF_FT_S_PCR_testcase.py:317-329 | the stripped request's own iteration against its conditional record passes and fills it from that record |
| `ConfigSplit.RoundTrip` | src/harness/testcases/WINNF_FT_S_PCR_testcase.py:317-329 | reconciling the stripped device against its own record succeeds. It restores the seven installation values and cbsdCategory, and every other key except airInterface and measCapability, which are not restored |
| `ConfigSplit.RoundTripExact` | src/harness/testcases/WINNF_FT_S_PCR_testcase.py:317-329 | when the installationParam held exactly the seven names, the round trip gives back the original device minus airInterface and measCapability |

## Left out

- `isPpaWithinServiceArea` and the polygon comparison (`utils.PolygonsAlmostEqual`): floating-point geometry in a foreign library (shapely, the census-tract driver).
- `triggerPpaCreationAndWaitUntilComplete`: polling of the remote admin API, with a 10-second sleep and a signal-based 7200-second timeout. It is remote I/O and OS signal handling.
- `triggerFadAndRetrievePpaZone`: certificate fingerprinting, peer injection and the full-activity-dump download are remote plumbing.
- The rest of `test_WINNF_FT_S_PCR_1`: data-path checks, record injection, registration and the external `ppa.PpaCreationModel`.
- The rest of `generate_PCR_1_default_config`: JSON file loading, `makePalRecordsConsistent`, the fixed coordinates and gains, and `writeConfig`. Only the device/conditional split is modelled.
- src/harness/testcases/WINNF_FT_S_FAD_testcase.py: it drives a remote SAS and compares downloaded records field by field.
- Reconciler.ReconcileConditionals: its preconditions are stronger than what is needed to avoid a KeyError: they exclude more inputs than the ones that would actually raise. Every conditional record must have `fccId`, `cbsdSerialNumber` and `cbsdCategory`. Every request lacking `installationParam` must have `fccId` and `cbsdSerialNumber`. Python reads these keys only as the loop reaches them. So the KeyError paths, and inputs that would pass without ever reading a missing key, are not modelled. The same requirements sit on `Reconciled`, `DeviceStep` and the lemmas.
- Reconciler.ReconcileConditionals: an `installationParam` value must be a JSON object. Python's `in` on a list or a string means element or substring membership, and that case is not modelled.
- Reconciler.ReconcileConditionals: requests are values in an array. If one dict object appeared twice in the Python list, an update through one entry would show through the other; that aliasing is not modelled. The copied values are immutable JSON scalars in practice, so sharing them with the conditional record is not modelled either.
- Reconciler.ApplyConditional: identifiers are compared (`SameDevice`) by structural equality of JSON values. Python's cross-type numeric equality (`1 == 1.0 == True`) is not modelled.
- ConfigSplit.SplitDevice: the generator works on one standalone dict. The model takes it by value and returns the stripped copy, without in-place deletion. A missing key would raise a KeyError; this is a precondition.
- Log output (`logging.debug`) and the exception message texts are not modelled. Each error is a distinct `ConfigError` value carrying the dictionary its message prints.
