/**
 * JSON-shaped records as the PCR test case handles them: a registration
 * request or a REG-conditional record is a dictionary from field names to
 * JSON values, and `installationParam` is itself such a dictionary.
 */
module Records {

  /** A JSON value. Numbers are kept as reals: the model never computes with them. */
  datatype Json =
    | JNull
    | JBool(b: bool)
    | JNum(n: real)
    | JStr(s: string)
    | JArr(items: seq<Json>)
    | JObj(fields: map<string, Json>)

  /** A Python dictionary of the PCR test case: a registration request, a conditional record or an installationParam object. */
  type Record = map<string, Json>

  const InstallationParam := "installationParam"
  const CbsdCategory := "cbsdCategory"
  const FccId := "fccId"
  const CbsdSerialNumber := "cbsdSerialNumber"
  const AirInterface := "airInterface"
  const MeasCapability := "measCapability"

  /** The seven names of the PCR test case's CONDITIONAL_PARAMS_REQUIRED, in their declared order. */
  const RequiredParams: seq<string> :=
    ["antennaAzimuth", "longitude", "latitude", "height",
     "antennaGain", "indoorDeployment", "antennaBeamwidth"]

  /** The same seven names as a set. */
  const RequiredSet: set<string> :=
    {"antennaAzimuth", "longitude", "latitude", "height",
     "antennaGain", "indoorDeployment", "antennaBeamwidth"}

  /** True when one of `names` is not a key of `ip`: the reconciler's `any(n not in ip for n in CONDITIONAL_PARAMS_REQUIRED)` test. */
  function AnyMissing(ip: Record, names: seq<string>): (r: bool)
    ensures r <==> exists n :: n in names && n !in ip
  {
    if names == [] then false
    else names[0] !in ip || AnyMissing(ip, names[1..])
  }

  /** An installationParam object holds every required name. */
  predicate Complete(ip: Record)
  {
    !AnyMissing(ip, RequiredParams)
  }

  lemma CompleteMeans(ip: Record)
    ensures Complete(ip) <==> RequiredSet <= ip.Keys
  {
  }

  /**
   * The installationParam built from a complete one: exactly the seven
   * required names, each with the value it has in `ip`; every other key
   * (for instance `eirpCapability`) is dropped.
   */
  function Project(ip: Record): (r: Record)
    requires Complete(ip)
    ensures r.Keys == RequiredSet
    ensures forall n :: n in r ==> n in ip && r[n] == ip[n]
    ensures Complete(r)
  {
    CompleteMeans(ip);
    map n | n in RequiredSet :: ip[n]
  }
}
