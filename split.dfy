/**
 * The device/conditional split of the PCR-1 default configuration: a
 * Category B registration request is turned into a conditional record
 * holding its installation data, and those fields are deleted from the
 * request. Reconciling the stripped request against that record is meant
 * to undo the split.
 */
module ConfigSplit {
  import opened Records
  import opened Reconciler

  /** The keys the split reads from the device (a KeyError otherwise). */
  predicate SplitSchema(d: Record)
  {
    && CbsdCategory in d && FccId in d && CbsdSerialNumber in d
    && AirInterface in d && InstallationParam in d && MeasCapability in d
  }

  /** The keys the conditional record receives. */
  const ConditionalKeys: set<string> :=
    {CbsdCategory, FccId, CbsdSerialNumber, AirInterface, InstallationParam, MeasCapability}

  /** The keys deleted from the device. */
  const MovedKeys: set<string> := {InstallationParam, CbsdCategory, AirInterface, MeasCapability}

  /**
   * The split as a value: (stripped device, conditional record). The
   * conditional holds the device's identity and installation data; the
   * stripped device keeps everything else, including its identity.
   */
  function Split(d: Record): (r: (Record, Record))
    requires SplitSchema(d)
    ensures r.1.Keys == ConditionalKeys
    ensures forall k :: k in r.1 ==> r.1[k] == d[k]
    ensures r.0.Keys == d.Keys - MovedKeys
    ensures forall k :: k in r.0 ==> r.0[k] == d[k]
    ensures FccId in r.0 && CbsdSerialNumber in r.0 && InstallationParam !in r.0
  {
    (d - MovedKeys,
     map[CbsdCategory := d[CbsdCategory],
         FccId := d[FccId],
         CbsdSerialNumber := d[CbsdSerialNumber],
         AirInterface := d[AirInterface],
         InstallationParam := d[InstallationParam],
         MeasCapability := d[MeasCapability]])
  }

  /** The generator's code: build the conditional record, then delete the four moved keys one by one. */
  method SplitDevice(device: Record) returns (stripped: Record, conditional: Record)
    requires SplitSchema(device)
    ensures (stripped, conditional) == Split(device)
  {
    conditional := map[
      CbsdCategory := device[CbsdCategory],
      FccId := device[FccId],
      CbsdSerialNumber := device[CbsdSerialNumber],
      AirInterface := device[AirInterface],
      InstallationParam := device[InstallationParam],
      MeasCapability := device[MeasCapability]];
    stripped := device;
    stripped := stripped - {InstallationParam};
    stripped := stripped - {CbsdCategory};
    stripped := stripped - {AirInterface};
    stripped := stripped - {MeasCapability};
    assert stripped.Keys == device.Keys - MovedKeys;
    assert stripped == Split(device).0;
    assert conditional == Split(device).1;
  }

  /**
   * Round trip: reconciling the stripped device against its own
   * conditional succeeds and restores the seven required installation
   * values and the category; airInterface and measCapability are not
   * restored, and neither are installationParam keys beyond the seven.
   */
  lemma RoundTrip(d: Record)
    requires SplitSchema(d)
    requires d[InstallationParam].JObj? && Complete(d[InstallationParam].fields)
    ensures var (s, c) := Split(d);
            && DeviceSchema(s) && ConditionalSchema(c)
            && var r := Reconciled([s], [c]);
            && r.outcome == Ok
            && |r.devices| == 1
            && r.devices[0].Keys == d.Keys - {AirInterface, MeasCapability}
            && r.devices[0][InstallationParam] == JObj(Project(d[InstallationParam].fields))
            && r.devices[0][CbsdCategory] == d[CbsdCategory]
            && forall k :: k in d && k !in MovedKeys ==> r.devices[0][k] == d[k]
  {
    var (s, c) := Split(d);
    assert DeviceSchema(s) && ConditionalSchema(c);
    StrippedStep(d);
    ReconciledSucceeds([s], [c]);
    var r := Reconciled([s], [c]);
    assert r.devices[0] == DeviceStep(s, [c]).device;
  }

  /** The stripped request's own iteration against its record passes and fills it from that record. */
  lemma StrippedStep(d: Record)
    requires SplitSchema(d)
    requires d[InstallationParam].JObj? && Complete(d[InstallationParam].fields)
    ensures var (s, c) := Split(d);
            && DeviceSchema(s) && ConditionalSchema(c)
            && DeviceStep(s, [c]).outcome == Ok
            && FilledFrom(DeviceStep(s, [c]).device, s, c)
  {
    var (s, c) := Split(d);
    FillOutcome(s, [c]);
    FillResult(s, [c]);
  }

  /**
   * When the installationParam held exactly the seven required names, the
   * round trip gives back the original request minus airInterface and
   * measCapability.
   */
  lemma RoundTripExact(d: Record)
    requires SplitSchema(d)
    requires d[InstallationParam].JObj? && d[InstallationParam].fields.Keys == RequiredSet
    ensures Complete(d[InstallationParam].fields)
    ensures var (s, c) := Split(d);
            && DeviceSchema(s) && ConditionalSchema(c)
            && Reconciled([s], [c]) == Run([d - {AirInterface, MeasCapability}], Ok)
  {
    CompleteMeans(d[InstallationParam].fields);
    RoundTrip(d);
    var (s, c) := Split(d);
    var r := Reconciled([s], [c]);
    assert Project(d[InstallationParam].fields) == d[InstallationParam].fields;
    assert r.devices[0] == d - {AirInterface, MeasCapability};
    assert r.devices == [d - {AirInterface, MeasCapability}];
  }
}
