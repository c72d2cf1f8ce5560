/** The cross-stack model diff: our snapshot against the reference's, and the gate on its counts. */
module ModelDiff {
  import opened Options

  /** A JSON value; true and false compare as the numbers 1 and 0. */
  datatype Value = Null | Text(s: string) | Numeric(n: real) | List(items: seq<Value>) | Dict(entries: map<string, Value>)

  /** The fields the comparison names; every other one by its own name. */
  datatype Field =
    | Usage | ForcedUsage | EnabledDefault | Parameter | Profile | WrappedDps | ParamsetKey | Category
    | Address | Number | Kind | Name | Rooms | Functions | GroupNo | OperationMode
    | Model | InterfaceId | Firmware | Version | ProductGroup | Other(name: string)

  type Fields = map<Field, Value>

  datatype ChannelNo = ChannelNo(n: int)

  datatype Channel = Channel(number: ChannelNo, fields: Fields, generic: seq<Fields>, custom: seq<Fields>, calculated: seq<Fields>)

  datatype Device = Device(address: string, fields: Fields, channels: seq<Channel>)

  type Drift = map<Field, (Value, Value)>

  function Get(fields: Fields, f: Field): Value {
    if f in fields then fields[f] else Null
  }

  predicate Blank(v: Value) {
    v == Null || v == Text("") || v == List([]) || v == Dict(map[])
  }

  const TOLERATED := {Profile, WrappedDps}
  const HIDDEN := {Text("ignored"), Text("no_create")}
  const NO_CREATE := Text("no_create")
  const CE_STATE := Text("ce_state")
  const CE_VISIBLE := Text("ce_visible")
  const DATA_POINT := Text("data_point")
  const LOCKS := {Text("WEEK_PROGRAM_CHANNEL_LOCKS"), Text("WEEK_PROGRAM_TARGET_CHANNEL_LOCK"), Text("WEEK_PROGRAM_TARGET_CHANNEL_LOCKS")}
  const REFERENCE_ONLY := {Text("DIRECTION"), Text("SMOKE_DETECTOR_ALARM_STATUS")}

  // ---------------------------------------------------------------------------------------
  // What it means for two data points to agree
  // ---------------------------------------------------------------------------------------

  /** The value of a field, nothing at all being the same as null. */
  function Plain(dp: Fields, f: Field): Value {
    if f !in dp || dp[f] == Text("") || dp[f] == List([]) || dp[f] == Dict(map[]) then Null else dp[f]
  }

  /** The value of a field up to the representations that mean the same: the two usages that hide, and
      the two that show a state. */
  function Seen(dp: Fields, f: Field): Value {
    var u, v := Plain(dp, Usage), Plain(dp, f);
    if f == Usage && (u == Text("ignored") || u == Text("no_create")) then Text("no_create")
    else if f == ForcedUsage && (u == Text("ignored") || u == Text("no_create")) && (v == Text("ignored") || v == Text("no_create"))
    then Null
    else if (f == Usage || f == ForcedUsage) && v == Text("ce_state") then Text("ce_visible")
    else v
  }

  predicate LockSuppressed(go: Fields, py: Fields) {
    Seen(go, Usage) == Text("no_create") && Seen(py, Usage) == Text("data_point")
    && (Seen(go, Parameter) == Text("WEEK_PROGRAM_CHANNEL_LOCKS") || Seen(go, Parameter) == Text("WEEK_PROGRAM_TARGET_CHANNEL_LOCK")
        || Seen(go, Parameter) == Text("WEEK_PROGRAM_TARGET_CHANNEL_LOCKS"))
  }

  predicate LocalButton(go: Fields, py: Fields) {
    Seen(go, Usage) == Text("event") && Seen(py, Usage) == Text("no_create")
    && Seen(go, Parameter).Text? && "PRESS" <= Seen(go, Parameter).s
  }

  predicate ReferenceOnly(go: Fields, py: Fields) {
    Seen(go, Usage) == Text("no_create") && (Seen(py, Usage) == Text("data_point") || Seen(py, Usage) == Text("ce_visible"))
    && (Seen(go, Parameter) == Text("DIRECTION") || Seen(go, Parameter) == Text("SMOKE_DETECTOR_ALARM_STATUS"))
  }

  /** A field whose difference is deliberate: part of a suppression signature. */
  predicate Deliberate(go: Fields, py: Fields, f: Field) {
    || (LockSuppressed(go, py) && f in {Usage, EnabledDefault})
    || ((LocalButton(go, py) || ReferenceOnly(go, py)) && f in {Usage, ForcedUsage, EnabledDefault})
  }

  /** Our forced usage only restates the usage both sides come to. */
  predicate RestatesUsage(go: Fields, py: Fields, f: Field) {
    && f == ForcedUsage && (Seen(go, Usage) == Seen(py, Usage) || Deliberate(go, py, Usage))
    && Seen(py, f) == Null && Seen(go, f) == Seen(go, Usage)
  }

  predicate FieldAgrees(go: Fields, py: Fields, f: Field) {
    f == Profile || f == WrappedDps || Seen(go, f) == Seen(py, f) || Deliberate(go, py, f) || RestatesUsage(go, py, f)
  }

  ghost predicate DpAgrees(go: Fields, py: Fields) {
    forall f :: FieldAgrees(go, py, f)
  }

  // ---------------------------------------------------------------------------------------
  // Comparing two data points
  // ---------------------------------------------------------------------------------------

  predicate IsClickPress(v: Value) {
    v.Text? && "PRESS" <= v.s
  }

  function Normalise(dp: Fields): Fields {
    map f | f in dp && !Blank(dp[f]) :: dp[f]
  }

  function CanonHidden(dp: Fields): Fields {
    if Get(dp, Usage) !in HIDDEN then dp
    else
      var out := dp[Usage := NO_CREATE];
      if Get(out, ForcedUsage) in HIDDEN then out - {ForcedUsage} else out
  }

  function CanonState(dp: Fields): Fields {
    if Get(dp, Usage) != CE_STATE && Get(dp, ForcedUsage) != CE_STATE then dp
    else
      var out := if Get(dp, Usage) == CE_STATE then dp[Usage := CE_VISIBLE] else dp;
      if Get(out, ForcedUsage) == CE_STATE then out[ForcedUsage := CE_VISIBLE] else out
  }

  function Canonical(dp: Fields): Fields {
    CanonState(CanonHidden(Normalise(dp)))
  }

  /** The canonicalisers compute, field by field, what is seen. */
  lemma CanonicalIsSeen(dp: Fields, f: Field)
    ensures Get(Canonical(dp), f) == Seen(dp, f)
    ensures f in Canonical(dp) <==> Seen(dp, f) != Null
  {
    var n := Normalise(dp);
    assert Get(n, f) == Plain(dp, f) && Get(n, Usage) == Plain(dp, Usage)
        && Get(n, ForcedUsage) == Plain(dp, ForcedUsage);
  }

  method RawDrift(go: Fields, py: Fields) returns (drift: Drift)
    ensures forall f :: f in drift <==> f in go.Keys + py.Keys && f !in TOLERATED && Get(go, f) != Get(py, f)
    ensures forall f :: f in drift ==> drift[f] == (Get(go, f), Get(py, f))
  {
    hide Get;
    drift := map[];
    var todo := go.Keys + py.Keys;
    while todo != {}
      invariant todo <= go.Keys + py.Keys
      invariant forall f :: f in drift <==> f in go.Keys + py.Keys - todo && f !in TOLERATED && Get(go, f) != Get(py, f)
      invariant forall f :: f in drift ==> drift[f] == (Get(go, f), Get(py, f))
      decreases |todo|
    {
      var f :| f in todo;
      if f !in TOLERATED && Get(go, f) != Get(py, f) {
        drift := drift[f := (Get(go, f), Get(py, f))];
      }
      todo := todo - {f};
    }
  }

  /** Takes the fields of the signatures that apply out of the drift. */
  method PopDeliberate(raw: Drift, lock: bool, button: bool, reference: bool)
    returns (drift: Drift)
    ensures forall f :: f in drift <==>
      && f in raw
      && !(lock && f in {Usage, EnabledDefault}) && !((button || reference) && f in {Usage, ForcedUsage, EnabledDefault})
    ensures forall f :: f in drift ==> drift[f] == raw[f]
  {
    drift := raw;
    if lock {
      drift := drift - {Usage, EnabledDefault};
    }
    if button {
      drift := drift - {Usage, ForcedUsage, EnabledDefault};
    }
    if reference {
      drift := drift - {Usage, ForcedUsage, EnabledDefault};
    }
  }

  /** Takes out a forced usage of ours that only restates the usage. */
  method PopRestated(raw: Drift, goUsage: Value) returns (drift: Drift)
    ensures forall f :: f in drift <==>
      && f in raw
      && !(f == ForcedUsage && Usage !in raw && raw[f].1 == Null && raw[f].0 != Null && raw[f].0 == goUsage)
    ensures forall f :: f in drift ==> drift[f] == raw[f]
  {
    drift := raw;
    if ForcedUsage in drift && Usage !in drift {
      var (goForced, pyForced) := drift[ForcedUsage];
      if pyForced == Null && goForced != Null && goForced == goUsage {
        drift := drift - {ForcedUsage};
      }
    }
  }

  ghost predicate IsRaw(goDp: Fields, pyDp: Fields, raw: Drift, f: Field) {
    && (f in raw <==> f !in TOLERATED && Seen(goDp, f) != Seen(pyDp, f))
    && (f in raw ==> raw[f] == (Seen(goDp, f), Seen(pyDp, f)))
  }

  lemma RawIs(goDp: Fields, pyDp: Fields, raw: Drift, f: Field)
    requires var go, py := Canonical(goDp), Canonical(pyDp);
      && (f in raw <==> f in go.Keys + py.Keys && f !in TOLERATED && Get(go, f) != Get(py, f))
      && (f in raw ==> raw[f] == (Get(go, f), Get(py, f)))
    ensures IsRaw(goDp, pyDp, raw, f)
  {
    hide Canonical, Seen, Get;
    CanonicalIsSeen(goDp, f);
    CanonicalIsSeen(pyDp, f);
  }

  /** The drift holds exactly the fields that disagree, with the values seen on either side. */
  method DiffDp(goDp: Fields, pyDp: Fields) returns (drift: Drift)
    ensures forall f :: f in drift <==> !FieldAgrees(goDp, pyDp, f)
    ensures forall f :: f in drift ==> drift[f] == (Seen(goDp, f), Seen(pyDp, f))
  {
    hide Canonical, Seen, IsClickPress, Get, FieldAgrees, IsRaw, LockSuppressed, LocalButton, ReferenceOnly;
    var go, py := Canonical(goDp), Canonical(pyDp);
    var lock := Get(go, Parameter) in LOCKS && Get(go, Usage) == NO_CREATE && Get(py, Usage) == DATA_POINT;
    var button := IsClickPress(Get(go, Parameter)) && Get(go, Usage) == Text("event") && Get(py, Usage) == NO_CREATE;
    var reference := Get(go, Parameter) in REFERENCE_ONLY && Get(go, Usage) == NO_CREATE
      && (Get(py, Usage) == DATA_POINT || Get(py, Usage) == CE_VISIBLE);
    Signatures(goDp, pyDp);
    assert lock == LockSuppressed(goDp, pyDp) && button == LocalButton(goDp, pyDp) && reference == ReferenceOnly(goDp, pyDp);
    var raw := RawDrift(go, py);
    forall f ensures IsRaw(goDp, pyDp, raw, f) {
      RawIs(goDp, pyDp, raw, f);
    }
    var kept := PopDeliberate(raw, lock, button, reference);
    drift := PopRestated(kept, Get(go, Usage));
    assert Get(go, Usage) == Seen(goDp, Usage) by { CanonicalIsSeen(goDp, Usage); }
    forall f ensures f in drift <==> !FieldAgrees(goDp, pyDp, f)
             ensures f in drift ==> drift[f] == (Seen(goDp, f), Seen(pyDp, f)) {
      DriftIs(goDp, pyDp, raw, kept, drift, f);
    }
  }

  lemma DriftIs(go: Fields, py: Fields, raw: Drift, kept: Drift, drift: Drift, f: Field)
    requires IsRaw(go, py, raw, f) && IsRaw(go, py, raw, Usage)
    requires (f in kept <==> f in raw && !Deliberate(go, py, f)) && (f in kept ==> kept[f] == raw[f])
    requires Usage in kept <==> Usage in raw && !Deliberate(go, py, Usage)
    requires f in drift <==>
      (f in kept && !(f == ForcedUsage && Usage !in kept && kept[f].1 == Null && kept[f].0 != Null && kept[f].0 == Seen(go, Usage)))
    requires f in drift ==> drift[f] == kept[f]
    ensures f in drift <==> !FieldAgrees(go, py, f)
    ensures f in drift ==> drift[f] == (Seen(go, f), Seen(py, f))
  {
    hide Seen, Deliberate;
    AgreesBySteps(go, py, f);
  }

  lemma Signatures(go: Fields, py: Fields)
    ensures var g, p := Canonical(go), Canonical(py);
      && (LockSuppressed(go, py) <==> Get(g, Parameter) in LOCKS && Get(g, Usage) == NO_CREATE && Get(p, Usage) == DATA_POINT)
      && (LocalButton(go, py) <==> IsClickPress(Get(g, Parameter)) && Get(g, Usage) == Text("event") && Get(p, Usage) == NO_CREATE)
      && (ReferenceOnly(go, py) <==>
            (Get(g, Parameter) in REFERENCE_ONLY && Get(g, Usage) == NO_CREATE && (Get(p, Usage) == DATA_POINT || Get(p, Usage) == CE_VISIBLE)))
  {
    hide Canonical, Seen, Get;
    CanonicalIsSeen(go, Parameter);
    CanonicalIsSeen(go, Usage);
    CanonicalIsSeen(py, Usage);
  }

  /** A field disagrees if it differs, no signature excuses it, and it does not restate the usage. */
  lemma AgreesBySteps(go: Fields, py: Fields, f: Field)
    ensures var raw := (x: Field) => x !in TOLERATED && Seen(go, x) != Seen(py, x);
      var kept := (x: Field) => raw(x) && !Deliberate(go, py, x);
      !FieldAgrees(go, py, f) <==>
        kept(f) && !(f == ForcedUsage && !kept(Usage) && Seen(py, f) == Null && Seen(go, f) != Null && Seen(go, f) == Seen(go, Usage))
  {
    hide Seen, LockSuppressed, LocalButton, ReferenceOnly;
  }

  lemma DpAgreesWithItself(dp: Fields)
    ensures DpAgrees(dp, dp)
  {
  }

  // ---------------------------------------------------------------------------------------
  // What it means for two snapshots to agree
  // ---------------------------------------------------------------------------------------

  /** A generic data point is known by its paramset and parameter, a custom one by its category, a
      calculated one by its parameter. */
  datatype Key = Generic(paramset: Value, parameter: Value) | Single(name: Value)

  function KeyOf(dp: Fields): Key {
    if ParamsetKey in dp then Generic(dp[ParamsetKey], Get(dp, Parameter))
    else if Profile in dp then Single(if Category in dp then dp[Category] else Text("custom"))
    else Single(Get(dp, Parameter))
  }

  /** Of two entries under one key the later one counts. */
  function IndexDps(dps: seq<Fields>): map<Key, Fields> {
    if dps == [] then map[]
    else var last := dps[|dps| - 1]; IndexDps(dps[..|dps| - 1])[KeyOf(last) := last]
  }

  function IndexChannels(channels: seq<Channel>): map<ChannelNo, Channel> {
    if channels == [] then map[]
    else var last := channels[|channels| - 1]; IndexChannels(channels[..|channels| - 1])[last.number := last]
  }

  function IndexDevices(devices: seq<Device>): map<string, Device> {
    if devices == [] then map[]
    else var last := devices[|devices| - 1]; IndexDevices(devices[..|devices| - 1])[last.address := last]
  }

  function Digits(n: nat): string {
    if n < 10 then ["0123456789"[n]] else Digits(n / 10) + ["0123456789"[n % 10]]
  }

  function Decimal(n: int): string {
    if n < 0 then "-" + Digits(-n) else Digits(n)
  }

  /** The number that decimal digits spell. */
  function Spelled(digits: string): int {
    if digits == "" then 0 else 10 * Spelled(digits[..|digits| - 1]) + (digits[|digits| - 1] as int - '0' as int)
  }

  lemma {:induction false} DigitsSpell(n: nat)
    ensures Spelled(Digits(n)) == n && Digits(n) != "" && (forall c :: c in Digits(n) ==> '0' <= c <= '9')
    ensures n >= 10 ==> Digits(n)[0] != '0'
    ensures n != 0 ==> Digits(n)[0] != '0'
  {
    DigitIs(n % 10);
    if n < 10 {
      assert Digits(n)[..0] == "";
    } else {
      DigitsSpell(n / 10);
      assert Digits(n)[..|Digits(n)| - 1] == Digits(n / 10);
    }
  }

  lemma DigitIs(d: nat)
    requires d < 10
    ensures "0123456789"[d] as int - '0' as int == d
  {
  }

  /** A number is spelled in decimal digits, without leading zeros and with a sign if it is negative. */
  lemma DecimalMeans(n: int)
    ensures n >= 0 ==> Spelled(Decimal(n)) == n && forall c :: c in Decimal(n) ==> '0' <= c <= '9'
    ensures n < 0 ==> Decimal(n) == "-" + Decimal(-n)
    ensures n > 0 ==> Decimal(n)[0] != '0'
    ensures Decimal(0) == "0"
  {
    DigitsSpell(if n < 0 then -n else n);
  }

  /** A field of a channel agrees if it is the same, nothing on both sides or, for the name, no custom
      name on both. */
  predicate ChannelFieldAgrees(go: Channel, py: Channel, f: Field) {
    var g := if f in go.fields then go.fields[f] else Null;
    var p := if f in py.fields then py.fields[f] else Null;
    || g == p
    || ((g == Null || g == Text("") || g == List([]) || g == Numeric(0.0)) && (p == Null || p == Text("") || p == List([]) || p == Numeric(0.0)))
    || (f == Name && Uncalled(g, py.number.n) && Uncalled(p, py.number.n))
  }

  /** No name, or the number for one. */
  predicate Uncalled(name: Value, number: int) {
    name == Null || name == Text("") || name == Text(Decimal(number)) || name == Numeric(number as real)
  }

  /** Every data point the reference has is here and agrees; further ones of ours do not matter. */
  ghost predicate DpsCovered(go: seq<Fields>, py: seq<Fields>) {
    forall k :: k in IndexDps(py) ==> k in IndexDps(go) && DpAgrees(IndexDps(go)[k], IndexDps(py)[k])
  }

  ghost predicate ChannelCovered(go: Channel, py: Channel) {
    && (forall f :: IsChannelField(f) ==> ChannelFieldAgrees(go, py, f))
    && DpsCovered(go.generic, py.generic) && DpsCovered(go.custom, py.custom) && DpsCovered(go.calculated, py.calculated)
  }

  predicate IsChannelField(f: Field) {
    f in {Address, Number, Kind, Name, Rooms, Functions, GroupNo, OperationMode}
  }

  predicate IsDeviceField(f: Field) {
    f in {Address, Model, Firmware, Version}
  }

  /** A field of a device agrees if it is the same or, for the firmware, unknown on both sides. */
  predicate DeviceFieldAgrees(go: Device, py: Device, f: Field) {
    var g := if f in go.fields then go.fields[f] else Null;
    var p := if f in py.fields then py.fields[f] else Null;
    || g == p
    || (f == Firmware && (g == Null || g == Text("") || g == Text("0.0")) && (p == Null || p == Text("") || p == Text("0.0")))
  }

  ghost predicate DeviceCovered(go: Device, py: Device) {
    && (forall f :: IsDeviceField(f) ==> DeviceFieldAgrees(go, py, f))
    && (forall n :: n in IndexChannels(py.channels) ==>
          n in IndexChannels(go.channels) && ChannelCovered(IndexChannels(go.channels)[n], IndexChannels(py.channels)[n]))
  }

  ghost predicate Covered(go: seq<Device>, py: seq<Device>) {
    forall a :: a in IndexDevices(py) ==> a in IndexDevices(go) && DeviceCovered(IndexDevices(go)[a], IndexDevices(py)[a])
  }

  /** A snapshot covers itself. */
  lemma CoversItself(s: seq<Device>)
    ensures Covered(s, s)
  {
    forall dp ensures DpAgrees(dp, dp) {
      DpAgreesWithItself(dp);
    }
  }

  // ---------------------------------------------------------------------------------------
  // The same said of the fields themselves
  // ---------------------------------------------------------------------------------------

  /** What an entry is known by: paramset and parameter, the category, or the parameter alone. */
  ghost predicate Identifies(dp: Fields, k: Key) {
    var parameter := if Parameter in dp then dp[Parameter] else Null;
    && (ParamsetKey in dp ==> k == Generic(dp[ParamsetKey], parameter))
    && (ParamsetKey !in dp && Profile in dp ==> k == Single(if Category in dp then dp[Category] else Text("custom")))
    && (ParamsetKey !in dp && Profile !in dp ==> k == Single(parameter))
  }

  /** The index of a collection holds the last entry of each key. */
  lemma {:induction false} IndexDpsMeans(dps: seq<Fields>, k: Key)
    ensures k in IndexDps(dps) <==> exists i :: 0 <= i < |dps| && Identifies(dps[i], k)
    ensures k in IndexDps(dps) ==>
      exists i :: 0 <= i < |dps| && Identifies(dps[i], k) && IndexDps(dps)[k] == dps[i] && forall j :: i < j < |dps| ==> !Identifies(dps[j], k)
  {
    if dps != [] {
      var n := |dps| - 1;
      IndexDpsMeans(dps[..n], k);
      assert KeyOf(dps[n]) == k <==> Identifies(dps[n], k);
      hide KeyOf, Identifies;
      if k in IndexDps(dps) && KeyOf(dps[n]) != k {
        var i :| 0 <= i < n && Identifies(dps[..n][i], k) && IndexDps(dps[..n])[k] == dps[..n][i]
          && forall j :: i < j < n ==> !Identifies(dps[..n][j], k);
        forall j | i < j < |dps| ensures !Identifies(dps[j], k) { assert j < n ==> dps[..n][j] == dps[j]; }
        assert dps[i] == dps[..n][i];
      }
    }
  }

  lemma {:induction false} IndexChannelsMeans(channels: seq<Channel>, n: ChannelNo)
    ensures n in IndexChannels(channels) <==> exists i :: 0 <= i < |channels| && channels[i].number == n
    ensures n in IndexChannels(channels) ==>
      exists i :: 0 <= i < |channels| && channels[i].number == n && IndexChannels(channels)[n] == channels[i]
        && forall j :: i < j < |channels| ==> channels[j].number != n
  {
    if channels != [] {
      IndexChannelsMeans(channels[..|channels| - 1], n);
    }
  }

  lemma {:induction false} IndexDevicesMeans(devices: seq<Device>, a: string)
    ensures a in IndexDevices(devices) <==> exists i :: 0 <= i < |devices| && devices[i].address == a
    ensures a in IndexDevices(devices) ==>
      exists i :: 0 <= i < |devices| && devices[i].address == a && IndexDevices(devices)[a] == devices[i]
        && forall j :: i < j < |devices| ==> devices[j].address != a
  {
    if devices != [] {
      IndexDevicesMeans(devices[..|devices| - 1], a);
    }
  }

  /** Both have the same value for a field, or neither has one. */
  ghost predicate Alike(g: Fields, p: Fields, f: Field) {
    (if f in g then g[f] else Null) == (if f in p then p[f] else Null)
  }

  ghost predicate Holds(fields: Fields, f: Field, values: set<Value>) {
    (if f in fields then fields[f] else Null) in values
  }

  ghost predicate DevicesAlike(g: Device, p: Device) {
    && Alike(g.fields, p.fields, Address) && Alike(g.fields, p.fields, Model) && Alike(g.fields, p.fields, Version)
    && (Alike(g.fields, p.fields, Firmware)
        || (Holds(g.fields, Firmware, {Null, Text(""), Text("0.0")}) && Holds(p.fields, Firmware, {Null, Text(""), Text("0.0")})))
  }

  ghost predicate AlikeOrNothing(g: Fields, p: Fields, f: Field) {
    || Alike(g, p, f)
    || (Holds(g, f, {Null, Text(""), List([]), Numeric(0.0)}) && Holds(p, f, {Null, Text(""), List([]), Numeric(0.0)}))
  }

  ghost predicate ChannelsAlike(g: Channel, p: Channel) {
    && AlikeOrNothing(g.fields, p.fields, Address) && AlikeOrNothing(g.fields, p.fields, Number)
    && AlikeOrNothing(g.fields, p.fields, Kind) && AlikeOrNothing(g.fields, p.fields, Rooms)
    && AlikeOrNothing(g.fields, p.fields, Functions) && AlikeOrNothing(g.fields, p.fields, GroupNo)
    && AlikeOrNothing(g.fields, p.fields, OperationMode)
    && (AlikeOrNothing(g.fields, p.fields, Name)
        || (Holds(g.fields, Name, NoNames(p.number.n)) && Holds(p.fields, Name, NoNames(p.number.n))))
  }

  /** The values that give a channel no name of its own. */
  ghost function NoNames(number: int): set<Value> {
    {Null, Text(""), Text(Decimal(number)), Numeric(number as real)}
  }

  lemma DeviceFieldsMean(g: Device, p: Device)
    ensures (forall f :: IsDeviceField(f) ==> DeviceFieldAgrees(g, p, f)) <==> DevicesAlike(g, p)
  {
    assert IsDeviceField(Address) && IsDeviceField(Model) && IsDeviceField(Firmware) && IsDeviceField(Version);
  }

  lemma ChannelFieldMeans(g: Channel, p: Channel, f: Field)
    ensures f != Name ==> (ChannelFieldAgrees(g, p, f) <==> AlikeOrNothing(g.fields, p.fields, f))
    ensures ChannelFieldAgrees(g, p, Name)
      <==> || AlikeOrNothing(g.fields, p.fields, Name)
           || (Holds(g.fields, Name, NoNames(p.number.n)) && Holds(p.fields, Name, NoNames(p.number.n)))
  {
  }

  lemma ChannelFieldsMean(g: Channel, p: Channel)
    ensures (forall f :: IsChannelField(f) ==> ChannelFieldAgrees(g, p, f)) <==> ChannelsAlike(g, p)
  {
    forall f ensures f != Name ==> (ChannelFieldAgrees(g, p, f) <==> AlikeOrNothing(g.fields, p.fields, f)) { ChannelFieldMeans(g, p, f); }
    ChannelFieldMeans(g, p, Name);
    hide ChannelFieldAgrees, AlikeOrNothing, Holds, NoNames;
    assert IsChannelField(Address) && IsChannelField(Number) && IsChannelField(Kind) && IsChannelField(Name);
    assert IsChannelField(Rooms) && IsChannelField(Functions) && IsChannelField(GroupNo) && IsChannelField(OperationMode);
  }

  /** All devices and channels that both snapshots have are alike in their own fields. */
  ghost predicate FieldsAlike(go: seq<Device>, py: seq<Device>) {
    forall a :: a in IndexDevices(go) && a in IndexDevices(py) ==>
      var g, p := IndexDevices(go)[a], IndexDevices(py)[a];
      && DevicesAlike(g, p)
      && forall n :: n in IndexChannels(g.channels) && n in IndexChannels(p.channels) ==>
           ChannelsAlike(IndexChannels(g.channels)[n], IndexChannels(p.channels)[n])
  }

  // ---------------------------------------------------------------------------------------
  // What there is to count
  // ---------------------------------------------------------------------------------------

  datatype Collection = GenericDps | CustomDps | CalculatedDps

  /** One difference that counts, by where it is. */
  datatype Item =
    | DeviceItem(a: string, f: Field)
    | ChannelGone(a: string, n: ChannelNo)
    | ChannelItem(a: string, n: ChannelNo, f: Field)
    | DpDrifted(a: string, n: ChannelNo, c: Collection, key: string)
    | DpGone(a: string, n: ChannelNo, c: Collection, k: Key)

  datatype Bucket = DeviceFields | MissingChannels | ChannelFields | Drifted(c: Collection) | OnlyPy(c: Collection)

  function BucketOf(i: Item): Bucket {
    match i
    case DeviceItem(_, _) => DeviceFields
    case ChannelGone(_, _) => MissingChannels
    case ChannelItem(_, _, _) => ChannelFields
    case DpDrifted(_, _, c, _) => Drifted(c)
    case DpGone(_, _, c, _) => OnlyPy(c)
  }

  function DpsOf(ch: Channel, c: Collection): seq<Fields> {
    match c
    case GenericDps => ch.generic
    case CustomDps => ch.custom
    case CalculatedDps => ch.calculated
  }

  /** The parts of a key joined by dots, as the report spells it; str spells a value. */
  function Joined(str: Value -> string, k: Key): string {
    match k
    case Generic(paramset, parameter) => str(paramset) + "." + str(parameter)
    case Single(name) => str(name)
  }

  ghost predicate SpelledAs(str: Value -> string, k: Key, key: string) {
    && (forall paramset, parameter :: k == Generic(paramset, parameter) ==> key == str(paramset) + "." + str(parameter))
    && (forall name :: k == Single(name) ==> key == str(name))
  }

  /** Some shared data point whose key is spelled so disagrees. */
  ghost predicate DriftsAs(str: Value -> string, go: seq<Fields>, py: seq<Fields>, key: string) {
    exists k :: k in IndexDps(go) && k in IndexDps(py) && !DpAgrees(IndexDps(go)[k], IndexDps(py)[k]) && SpelledAs(str, k, key)
  }

  lemma JoinedIsSpelled(str: Value -> string, k: Key, key: string)
    ensures SpelledAs(str, k, key) <==> Joined(str, k) == key
  {
  }

  ghost predicate CountsInChannel(str: Value -> string, go: Channel, py: Channel, i: Item) {
    match i
    case ChannelItem(_, _, f) => IsChannelField(f) && !ChannelFieldAgrees(go, py, f)
    case DpDrifted(_, _, c, key) => DriftsAs(str, DpsOf(go, c), DpsOf(py, c), key)
    case DpGone(_, _, c, k) => k in IndexDps(DpsOf(py, c)) && k !in IndexDps(DpsOf(go, c))
    case _ => false
  }

  ghost predicate CountsInDevice(str: Value -> string, go: Device, py: Device, i: Item) {
    var g, p := IndexChannels(go.channels), IndexChannels(py.channels);
    match i
    case DeviceItem(_, f) => IsDeviceField(f) && !DeviceFieldAgrees(go, py, f)
    case ChannelGone(_, n) => n in p && n !in g
    case _ => i.n in g && i.n in p && CountsInChannel(str, g[i.n], p[i.n], i)
  }

  /** The differences of two snapshots that count: those of the devices both have. */
  ghost predicate CountsIn(str: Value -> string, go: seq<Device>, py: seq<Device>, i: Item) {
    var g, p := IndexDevices(go), IndexDevices(py);
    i.a in g && i.a in p && CountsInDevice(str, g[i.a], p[i.a], i)
  }

  lemma ChannelCoveredIs(str: Value -> string, go: Channel, py: Channel, a: string, n: ChannelNo)
    ensures ChannelCovered(go, py) <==> forall i: Item :: !CountsInChannel(str, go, py, i)
  {
    hide ChannelFieldAgrees, IndexDps, DpAgrees;
    if forall i: Item :: !CountsInChannel(str, go, py, i) {
      forall f | IsChannelField(f) ensures ChannelFieldAgrees(go, py, f) {
        assert !CountsInChannel(str, go, py, ChannelItem(a, n, f));
      }
      forall c: Collection ensures DpsCovered(DpsOf(go, c), DpsOf(py, c)) {
        forall k | k in IndexDps(DpsOf(py, c))
          ensures k in IndexDps(DpsOf(go, c)) && DpAgrees(IndexDps(DpsOf(go, c))[k], IndexDps(DpsOf(py, c))[k]) {
          JoinedIsSpelled(str, k, Joined(str, k));
          assert !CountsInChannel(str, go, py, DpGone(a, n, c, k)) && !CountsInChannel(str, go, py, DpDrifted(a, n, c, Joined(str, k)));
        }
      }
      assert DpsCovered(DpsOf(go, GenericDps), DpsOf(py, GenericDps));
      assert DpsCovered(DpsOf(go, CustomDps), DpsOf(py, CustomDps));
      assert DpsCovered(DpsOf(go, CalculatedDps), DpsOf(py, CalculatedDps));
    }
  }

  lemma DeviceCoveredIs(str: Value -> string, go: Device, py: Device, a: string)
    ensures DeviceCovered(go, py) <==> forall i: Item :: !CountsInDevice(str, go, py, i)
  {
    hide DeviceFieldAgrees, IndexChannels, ChannelCovered, CountsInChannel;
    var g, p := IndexChannels(go.channels), IndexChannels(py.channels);
    forall n | n in g && n in p ensures ChannelCovered(g[n], p[n]) <==> forall i: Item :: !CountsInChannel(str, g[n], p[n], i) {
      ChannelCoveredIs(str, g[n], p[n], a, n);
    }
    if forall i: Item :: !CountsInDevice(str, go, py, i) {
      forall f | IsDeviceField(f) ensures DeviceFieldAgrees(go, py, f) {
        assert !CountsInDevice(str, go, py, DeviceItem(a, f));
      }
      forall n | n in p ensures n in g && ChannelCovered(g[n], p[n]) {
        assert !CountsInDevice(str, go, py, ChannelGone(a, n));
        forall i: Item ensures !CountsInChannel(str, g[n], p[n], i) {
          ItemMoves(str, g[n], p[n], i, a, n);
          assert CountsInChannel(str, g[n], p[n], i) ==> CountsInDevice(str, go, py, At(i, a, n));
        }
      }
    }
  }

  /** Where a channel is makes no difference to what counts in it. */
  function At(i: Item, a: string, n: ChannelNo): Item {
    match i
    case ChannelItem(_, _, f) => ChannelItem(a, n, f)
    case DpDrifted(_, _, c, key) => DpDrifted(a, n, c, key)
    case DpGone(_, _, c, k) => DpGone(a, n, c, k)
    case _ => i
  }

  lemma ItemMoves(str: Value -> string, go: Channel, py: Channel, i: Item, a: string, n: ChannelNo)
    ensures CountsInChannel(str, go, py, i) <==> CountsInChannel(str, go, py, At(i, a, n))
    ensures CountsInChannel(str, go, py, i) ==> !At(i, a, n).DeviceItem? && !At(i, a, n).ChannelGone? && At(i, a, n).n == n
  {
  }

  lemma CoveredIs(str: Value -> string, go: seq<Device>, py: seq<Device>)
    ensures Covered(go, py) <==>
      IndexDevices(py).Keys <= IndexDevices(go).Keys && forall i: Item :: !CountsIn(str, go, py, i)
  {
    hide IndexDevices, DeviceCovered, CountsInDevice;
    var g, p := IndexDevices(go), IndexDevices(py);
    forall a | a in g && a in p ensures DeviceCovered(g[a], p[a]) <==> forall i: Item :: !CountsInDevice(str, g[a], p[a], i) {
      DeviceCoveredIs(str, g[a], p[a], a);
    }
    if p.Keys <= g.Keys && forall i: Item :: !CountsIn(str, go, py, i) {
      forall a | a in p ensures a in g && DeviceCovered(g[a], p[a]) {
        forall i: Item ensures !CountsInDevice(str, g[a], p[a], i) {
          ItemMovesDevice(str, g[a], p[a], i, a);
          assert !CountsIn(str, go, py, In(i, a));
        }
      }
    }
  }

  function In(i: Item, a: string): Item {
    i.(a := a)
  }

  lemma ItemMovesDevice(str: Value -> string, go: Device, py: Device, i: Item, a: string)
    ensures CountsInDevice(str, go, py, i) <==> CountsInDevice(str, go, py, In(i, a))
  {
    hide IndexChannels, IndexDps, DpAgrees, ChannelFieldAgrees, DeviceFieldAgrees;
  }

  // ---------------------------------------------------------------------------------------
  // The diff
  // ---------------------------------------------------------------------------------------

  datatype DpsDrift = DpsDrift(onlyGo: set<Key>, onlyPy: set<Key>, drifted: set<string>)

  datatype ChannelDrift = ChannelDrift(fields: set<Field>, dps: map<Collection, DpsDrift>)

  datatype DeviceDrift = DeviceDrift(fields: set<Field>, onlyGo: set<ChannelNo>, onlyPy: set<ChannelNo>, channels: map<ChannelNo, ChannelDrift>)

  const NO_DRIFT := DpsDrift({}, {}, {})

  predicate InChannelDrift(d: ChannelDrift, i: Item) {
    match i
    case ChannelItem(_, _, f) => f in d.fields
    case DpDrifted(_, _, c, key) => c in d.dps && key in d.dps[c].drifted
    case DpGone(_, _, c, k) => c in d.dps && k in d.dps[c].onlyPy
    case _ => false
  }

  predicate InDeviceDrift(d: DeviceDrift, i: Item) {
    match i
    case DeviceItem(_, f) => f in d.fields
    case ChannelGone(_, n) => n in d.onlyPy
    case _ => i.n in d.channels && InChannelDrift(d.channels[i.n], i)
  }

  method DiffDps(str: Value -> string, go: seq<Fields>, py: seq<Fields>) returns (d: DpsDrift)
    ensures d.onlyGo == IndexDps(go).Keys - IndexDps(py).Keys && d.onlyPy == IndexDps(py).Keys - IndexDps(go).Keys
    ensures forall key :: key in d.drifted <==> DriftsAs(str, go, py, key)
  {
    hide DpAgrees, IndexDps, FieldAgrees, Joined;
    var goDps, pyDps := IndexDps(go), IndexDps(py);
    var drifted: set<string> := {};
    var todo := goDps.Keys * pyDps.Keys;
    while todo != {}
      invariant todo <= goDps.Keys * pyDps.Keys
      invariant forall key :: key in drifted <==>
        exists k :: k in goDps.Keys * pyDps.Keys - todo && !DpAgrees(goDps[k], pyDps[k]) && Joined(str, k) == key
      decreases |todo|
    {
      var k :| k in todo;
      var drift := DiffDp(goDps[k], pyDps[k]);
      NoDriftAgrees(goDps[k], pyDps[k], drift);
      if drift != map[] {
        drifted := drifted + {Joined(str, k)};
      }
      todo := todo - {k};
    }
    forall k, key ensures SpelledAs(str, k, key) <==> Joined(str, k) == key { JoinedIsSpelled(str, k, key); }
    hide SpelledAs;
    d := DpsDrift(goDps.Keys - pyDps.Keys, pyDps.Keys - goDps.Keys, drifted);
  }

  lemma NoDriftAgrees(go: Fields, py: Fields, drift: Drift)
    requires forall f :: f in drift <==> !FieldAgrees(go, py, f)
    ensures drift == map[] <==> DpAgrees(go, py)
  {
    hide FieldAgrees;
    assert drift == map[] <==> forall f :: f !in drift;
  }

  const CHANNEL_FIELDS := [Address, Number, Kind, Name, Rooms, Functions, GroupNo, OperationMode]

  predicate Nothing(v: Value) {
    v == Null || v == Text("") || v == List([]) || v == Numeric(0.0)
  }

  /** No custom name: none at all, or the channel's number. */
  predicate Unnamed(name: Value, number: ChannelNo) {
    name == Null || name == Text("") || name == Text(Decimal(number.n)) || name == Numeric(number.n as real)
  }

  /** The scalar fields of a channel, one after another. */
  method DiffChannelFields(go: Channel, py: Channel) returns (fields: set<Field>)
    ensures forall f :: f in fields <==> IsChannelField(f) && !ChannelFieldAgrees(go, py, f)
  {
    fields := {};
    var i := 0;
    while i < |CHANNEL_FIELDS|
      invariant 0 <= i <= |CHANNEL_FIELDS|
      invariant forall f :: f in fields <==> f in CHANNEL_FIELDS[..i] && !ChannelFieldAgrees(go, py, f)
    {
      var f := CHANNEL_FIELDS[i];
      assert CHANNEL_FIELDS[..i + 1] == CHANNEL_FIELDS[..i] + [f];
      var g, p := Get(go.fields, f), Get(py.fields, f);
      var same := (Nothing(g) && Nothing(p)) || (f == Name && Unnamed(g, py.number) && Unnamed(p, py.number)) || g == p;
      assert same == ChannelFieldAgrees(go, py, f);
      hide ChannelFieldAgrees, Nothing, Unnamed, Get;
      if !same {
        fields := fields + {f};
      }
      i := i + 1;
    }
    assert CHANNEL_FIELDS[..i] == CHANNEL_FIELDS;
    ChannelFieldsListed();
  }

  lemma ChannelFieldsListed()
    ensures forall f :: f in CHANNEL_FIELDS <==> IsChannelField(f)
  {
    assert CHANNEL_FIELDS[0] == Address && CHANNEL_FIELDS[1] == Number && CHANNEL_FIELDS[2] == Kind && CHANNEL_FIELDS[3] == Name;
    assert CHANNEL_FIELDS[4] == Rooms && CHANNEL_FIELDS[5] == Functions && CHANNEL_FIELDS[6] == GroupNo && CHANNEL_FIELDS[7] == OperationMode;
  }

  /** The drift of a channel: what counts in it, and the extras of ours. */
  method DiffChannel(str: Value -> string, go: Channel, py: Channel) returns (d: ChannelDrift)
    ensures forall i :: InChannelDrift(d, i) <==> CountsInChannel(str, go, py, i)
    ensures forall c :: c in d.dps ==> d.dps[c].onlyGo == IndexDps(DpsOf(go, c)).Keys - IndexDps(DpsOf(py, c)).Keys
  {
    hide ChannelFieldAgrees, IndexDps, DriftsAs;
    var fields := DiffChannelFields(go, py);
    var dps: map<Collection, DpsDrift> := map[];
    var order := [GenericDps, CustomDps, CalculatedDps];
    var j := 0;
    while j < 3
      invariant 0 <= j <= 3
      invariant forall c :: c in dps ==> dps[c].onlyGo == IndexDps(DpsOf(go, c)).Keys - IndexDps(DpsOf(py, c)).Keys
      invariant forall c, k :: c in order[..j] ==>
        ((c in dps && k in dps[c].onlyPy) <==> (k in IndexDps(DpsOf(py, c)) && k !in IndexDps(DpsOf(go, c))))
      invariant forall c, key :: c in order[..j] ==>
        ((c in dps && key in dps[c].drifted) <==> DriftsAs(str, DpsOf(go, c), DpsOf(py, c), key))
      invariant forall c :: c in dps ==> c in order[..j]
    {
      var c := order[j];
      assert order[..j + 1] == order[..j] + [c];
      assert c !in order[..j];
      var one := DiffDps(str, DpsOf(go, c), DpsOf(py, c));
      if one != NO_DRIFT {
        dps := dps[c := one];
      }
      j := j + 1;
    }
    assert order[..3] == order;
    forall c: Collection ensures c in order {
      match c {
        case GenericDps => assert order[0] == c;
        case CustomDps => assert order[1] == c;
        case CalculatedDps => assert order[2] == c;
      }
    }
    d := ChannelDrift(fields, dps);
  }

  const DEVICE_FIELDS := [Address, Model, Firmware, Version]

  function CanonFirmware(v: Value): Value {
    if v == Null || v == Text("0.0") then Text("") else v
  }

  /** The scalar fields of a device, one after another. */
  method DiffDeviceFields(go: Device, py: Device) returns (fields: set<Field>)
    ensures forall f :: f in fields <==> IsDeviceField(f) && !DeviceFieldAgrees(go, py, f)
  {
    fields := {};
    var i := 0;
    while i < |DEVICE_FIELDS|
      invariant 0 <= i <= |DEVICE_FIELDS|
      invariant forall f :: f in fields <==> f in DEVICE_FIELDS[..i] && !DeviceFieldAgrees(go, py, f)
    {
      var f := DEVICE_FIELDS[i];
      assert DEVICE_FIELDS[..i + 1] == DEVICE_FIELDS[..i] + [f];
      var g, p := Get(go.fields, f), Get(py.fields, f);
      var same := if f == Firmware then CanonFirmware(g) == CanonFirmware(p) else g == p;
      assert same == DeviceFieldAgrees(go, py, f);
      hide DeviceFieldAgrees, CanonFirmware, Get;
      if !same {
        fields := fields + {f};
      }
      i := i + 1;
    }
    assert DEVICE_FIELDS[..i] == DEVICE_FIELDS;
    DeviceFieldsListed();
  }

  lemma DeviceFieldsListed()
    ensures forall f :: f in DEVICE_FIELDS <==> IsDeviceField(f)
  {
    assert DEVICE_FIELDS[0] == Address && DEVICE_FIELDS[1] == Model && DEVICE_FIELDS[2] == Firmware && DEVICE_FIELDS[3] == Version;
  }

  /** The drift of a device holds exactly what counts in it. */
  method DiffDevice(str: Value -> string, go: Device, py: Device) returns (d: DeviceDrift)
    ensures forall i :: InDeviceDrift(d, i) <==> CountsInDevice(str, go, py, i)
    ensures d.onlyGo == IndexChannels(go.channels).Keys - IndexChannels(py.channels).Keys
  {
    hide DeviceFieldAgrees, CountsInChannel, InChannelDrift, IndexChannels;
    var fields := DiffDeviceFields(go, py);
    var goChs, pyChs := IndexChannels(go.channels), IndexChannels(py.channels);
    var channels: map<ChannelNo, ChannelDrift> := map[];
    var todo := goChs.Keys * pyChs.Keys;
    while todo != {}
      invariant todo <= goChs.Keys * pyChs.Keys && channels.Keys <= goChs.Keys * pyChs.Keys - todo
      invariant forall n, i :: n in goChs.Keys * pyChs.Keys - todo ==>
        ((n in channels && InChannelDrift(channels[n], i)) <==> CountsInChannel(str, goChs[n], pyChs[n], i))
      decreases |todo|
    {
      var n :| n in todo;
      var ch := DiffChannel(str, goChs[n], pyChs[n]);
      if ch != ChannelDrift({}, map[]) {
        channels := channels[n := ch];
      } else {
        NothingDrifted(ch);
      }
      todo := todo - {n};
    }
    d := DeviceDrift(fields, goChs.Keys - pyChs.Keys, pyChs.Keys - goChs.Keys, channels);
  }

  lemma NothingDrifted(d: ChannelDrift)
    requires d == ChannelDrift({}, map[])
    ensures forall i :: !InChannelDrift(d, i)
  {
  }

  // ---------------------------------------------------------------------------------------
  // The counts and the two verdicts
  // ---------------------------------------------------------------------------------------

  function CountOf(counts: map<Bucket, nat>, b: Bucket): nat {
    if b in counts then counts[b] else 0
  }

  function Add(counts: map<Bucket, nat>, b: Bucket, n: nat): map<Bucket, nat> {
    if n == 0 then counts else counts[b := CountOf(counts, b) + n]
  }

  ghost function Of(items: set<Item>, b: Bucket): set<Item> {
    set i | i in items && BucketOf(i) == b
  }

  /** Each bucket counts its items. */
  ghost predicate Tally(counts: map<Bucket, nat>, items: set<Item>) {
    forall b :: CountOf(counts, b) == |Of(items, b)|
  }

  lemma OfMore(items: set<Item>, b: Bucket, more: set<Item>, x: Bucket)
    requires items !! more && forall i :: i in more ==> BucketOf(i) == b
    ensures |Of(items + more, x)| == |Of(items, x)| + if x == b then |more| else 0
  {
    if x == b {
      assert Of(items + more, x) == Of(items, x) + more;
    } else {
      assert Of(items + more, x) == Of(items, x);
    }
  }

  lemma Batch(counts: map<Bucket, nat>, items: set<Item>, b: Bucket, more: set<Item>)
    requires Tally(counts, items) && items !! more && forall i :: i in more ==> BucketOf(i) == b
    ensures Tally(Add(counts, b, |more|), items + more)
  {
    hide Of, BucketOf;
    forall x ensures CountOf(Add(counts, b, |more|), x) == |Of(items + more, x)| {
      OfMore(items, b, more, x);
    }
  }

  lemma {:induction false} ImageSize<T>(s: set<T>, image: set<Item>, f: T -> Item)
    requires forall x :: x in s ==> f(x) in image
    requires forall i :: i in image ==> exists x :: x in s && f(x) == i
    requires forall x, y :: x in s && y in s && f(x) == f(y) ==> x == y
    ensures |image| == |s|
    decreases |s|
  {
    if s == {} {
      assert image == {};
    } else {
      var x :| x in s;
      ImageSize(s - {x}, image - {f(x)}, f);
    }
  }

  /** i is within channel n. */
  predicate Within(i: Item, n: ChannelNo) {
    !i.DeviceItem? && !i.ChannelGone? && i.n == n
  }

  method CountDps(counts: map<Bucket, nat>, a: string, n: ChannelNo, c: Collection, d: DpsDrift, ghost seen: set<Item>)
    returns (after: map<Bucket, nat>, ghost all: set<Item>)
    requires Tally(counts, seen)
    requires forall i :: i in seen && i.a == a && Within(i, n) ==> i.ChannelItem? || i.c != c
    ensures Tally(after, all)
    ensures forall i :: i in all <==>
      || i in seen
      || (i.DpDrifted? && i.a == a && i.n == n && i.c == c && i.key in d.drifted)
      || (i.DpGone? && i.a == a && i.n == n && i.c == c && i.k in d.onlyPy)
  {
    ghost var drifted, gone := DpItems(a, n, c, d);
    Batch(counts, seen, Drifted(c), drifted);
    hide Tally;
    after := Add(counts, Drifted(c), |d.drifted|);
    Batch(after, seen + drifted, OnlyPy(c), gone);
    after := Add(after, OnlyPy(c), |d.onlyPy|);
    all := seen + drifted + gone;
  }

  /** The items of a collection, as many as it has keys. */
  lemma DpItems(a: string, n: ChannelNo, c: Collection, d: DpsDrift) returns (drifted: set<Item>, gone: set<Item>)
    ensures |drifted| == |d.drifted| && |gone| == |d.onlyPy|
    ensures forall i :: i in drifted <==> i.DpDrifted? && i.a == a && i.n == n && i.c == c && i.key in d.drifted
    ensures forall i :: i in gone <==> i.DpGone? && i.a == a && i.n == n && i.c == c && i.k in d.onlyPy
  {
    drifted := set key | key in d.drifted :: DpDrifted(a, n, c, key);
    gone := set k | k in d.onlyPy :: DpGone(a, n, c, k);
    ImageSize(d.drifted, drifted, key => DpDrifted(a, n, c, key));
    ImageSize(d.onlyPy, gone, k => DpGone(a, n, c, k));
  }

  method CountChannel(counts: map<Bucket, nat>, a: string, n: ChannelNo, d: ChannelDrift, ghost seen: set<Item>)
    returns (after: map<Bucket, nat>, ghost all: set<Item>)
    requires Tally(counts, seen) && forall i :: i in seen ==> !(i.a == a && Within(i, n))
    ensures Tally(after, all)
    ensures forall i :: i in all <==> i in seen || (i.a == a && Within(i, n) && InChannelDrift(d, i))
  {
    ghost var fields := set f | f in d.fields :: ChannelItem(a, n, f);
    ImageSize(d.fields, fields, f => ChannelItem(a, n, f));
    Batch(counts, seen, ChannelFields, fields);
    after := Add(counts, ChannelFields, |d.fields|);
    all := seen + fields;
    hide Tally;
    var todo := d.dps.Keys;
    while todo != {}
      invariant todo <= d.dps.Keys && Tally(after, all)
      invariant forall i :: i in all <==>
        i in seen || (i.a == a && Within(i, n) && InChannelDrift(d, i) && (i.ChannelItem? || i.c !in todo))
      decreases |todo|
    {
      var c :| c in todo;
      after, all := CountDps(after, a, n, c, d.dps[c], all);
      todo := todo - {c};
    }
  }

  method CountDevice(counts: map<Bucket, nat>, a: string, d: DeviceDrift, ghost seen: set<Item>)
    returns (after: map<Bucket, nat>, ghost all: set<Item>)
    requires Tally(counts, seen) && forall i :: i in seen ==> i.a != a
    ensures Tally(after, all)
    ensures forall i :: i in all <==> i in seen || (i.a == a && InDeviceDrift(d, i))
  {
    ghost var fields := set f | f in d.fields :: DeviceItem(a, f);
    ghost var gone := set n | n in d.onlyPy :: ChannelGone(a, n);
    ImageSize(d.fields, fields, f => DeviceItem(a, f));
    ImageSize(d.onlyPy, gone, n => ChannelGone(a, n));
    Batch(counts, seen, DeviceFields, fields);
    after := Add(counts, DeviceFields, |d.fields|);
    Batch(after, seen + fields, MissingChannels, gone);
    after := Add(after, MissingChannels, |d.onlyPy|);
    all := seen + fields + gone;
    hide Tally, InChannelDrift;
    var todo := d.channels.Keys;
    while todo != {}
      invariant todo <= d.channels.Keys && Tally(after, all)
      invariant forall i :: i in all <==>
        i in seen || (i.a == a && InDeviceDrift(d, i) && (i.DeviceItem? || i.ChannelGone? || i.n !in todo))
      decreases |todo|
    {
      var n :| n in todo;
      after, all := CountChannel(after, a, n, d.channels[n], all);
      todo := todo - {n};
    }
  }

  method Sum(counts: map<Bucket, nat>) returns (total: nat)
    ensures total == 0 <==> forall b :: CountOf(counts, b) == 0
  {
    total := 0;
    var todo := counts.Keys;
    while todo != {}
      invariant todo <= counts.Keys
      invariant total == 0 <==> forall b :: b in counts.Keys - todo ==> CountOf(counts, b) == 0
      decreases |todo|
    {
      var b :| b in todo;
      total := total + counts[b];
      assert counts.Keys - (todo - {b}) == counts.Keys - todo + {b} && counts[b] == CountOf(counts, b);
      todo := todo - {b};
    }
  }

  /** The reference's devices we lack, and how much counts in each bucket. */
  datatype Report = Report(missing: set<string>, counts: map<Bucket, nat>)

  method CountDrift(str: Value -> string, goDevs: map<string, Device>, pyDevs: map<string, Device>)
    returns (counts: map<Bucket, nat>, ghost items: set<Item>)
    ensures Tally(counts, items)
    ensures forall i :: i in items <==> i.a in goDevs && i.a in pyDevs && CountsInDevice(str, goDevs[i.a], pyDevs[i.a], i)
  {
    hide CountsInDevice, InDeviceDrift;
    counts := map[];
    items := {};
    assert Tally(counts, items);
    hide Tally;
    var todo := goDevs.Keys * pyDevs.Keys;
    while todo != {}
      invariant todo <= goDevs.Keys * pyDevs.Keys && Tally(counts, items)
      invariant forall i :: i in items <==> i.a in goDevs.Keys * pyDevs.Keys - todo && CountsInDevice(str, goDevs[i.a], pyDevs[i.a], i)
      decreases |todo|
    {
      var a :| a in todo;
      var d := DiffDevice(str, goDevs[a], pyDevs[a]);
      counts, items := CountDevice(counts, a, d, items);
      todo := todo - {a};
    }
  }

  /** The report counts exactly the differences of the two snapshots; the diff exits 0 exactly when
      ours covers the reference's, as every snapshot does itself, and 2 when one of them is missing. */
  method Diff(str: Value -> string, go: Option<seq<Device>>, py: Option<seq<Device>>)
    returns (exit: nat, report: Option<Report>, ghost items: set<Item>)
    ensures exit == 2 <==> go.None? || py.None?
    ensures exit == 0 <==> go.Some? && py.Some? && Covered(go.value, py.value)
    ensures go.Some? && go == py ==> exit == 0
    ensures exit != 2 ==>
      report.Some? && Reports(str, go.value, py.value, report.value, items)
    ensures exit == 0 ==> FieldsAlike(go.value, py.value)
    ensures exit != 2 ==>
      (CountOf(report.value.counts, DeviceFields) == 0 && CountOf(report.value.counts, ChannelFields) == 0 <==> FieldsAlike(go.value, py.value))
  {
    if go.None? || py.None? {
      return 2, None, {};
    }
    hide Covered, IndexDevices, CountsInDevice, Tally, FieldsAlike;
    var goDevs, pyDevs := IndexDevices(go.value), IndexDevices(py.value);
    var counts;
    counts, items := CountDrift(str, goDevs, pyDevs);
    var missing := pyDevs.Keys - goDevs.Keys;
    var total := Sum(counts);
    report := Some(Report(missing, counts));
    exit := if |missing| + total == 0 then 0 else 1;
    Verdict(str, go.value, py.value, report.value, items);
    CoversItself(py.value);
    hide Reports, CountsIn, CountOf;
  }

  /** What a report says of its snapshots. */
  lemma Verdict(str: Value -> string, go: seq<Device>, py: seq<Device>, r: Report, items: set<Item>)
    requires Tally(r.counts, items) && r.missing == IndexDevices(py).Keys - IndexDevices(go).Keys
    requires forall i :: i in items <==>
      i.a in IndexDevices(go) && i.a in IndexDevices(py) && CountsInDevice(str, IndexDevices(go)[i.a], IndexDevices(py)[i.a], i)
    ensures Reports(str, go, py, r, items)
    ensures Covered(go, py) <==> r.missing == {} && forall b :: CountOf(r.counts, b) == 0
    ensures CountOf(r.counts, DeviceFields) == 0 && CountOf(r.counts, ChannelFields) == 0 <==> FieldsAlike(go, py)
  {
    hide Covered, IndexDevices, CountsInDevice, Tally, FieldsAlike, CountOf;
    assert forall i :: i in items <==> CountsIn(str, go, py, i);
    hide CountsIn;
    CoveredIs(str, go, py);
    NothingTallied(r.counts, items);
    NoItems(str, go, py, items);
    NoneMissing(IndexDevices(py).Keys, IndexDevices(go).Keys);
    FieldsCounted(str, go, py);
    FieldCounts(r.counts, items);
  }

  lemma FieldCounts(counts: map<Bucket, nat>, items: set<Item>)
    requires Tally(counts, items)
    ensures CountOf(counts, DeviceFields) == 0 && CountOf(counts, ChannelFields) == 0
      <==> forall i :: i in items ==> !i.DeviceItem? && !i.ChannelItem?
  {
    forall i | i in items ensures i in Of(items, BucketOf(i)) {}
    if forall i :: i in items ==> !i.DeviceItem? && !i.ChannelItem? {
      assert Of(items, DeviceFields) == {} && Of(items, ChannelFields) == {};
    }
  }

  /** No field of a device or a channel is counted exactly when all shared ones are alike. */
  lemma FieldsCounted(str: Value -> string, go: seq<Device>, py: seq<Device>)
    ensures (forall i :: CountsIn(str, go, py, i) ==> !i.DeviceItem? && !i.ChannelItem?) <==> FieldsAlike(go, py)
  {
    hide IndexDevices, IndexChannels, DevicesAlike, ChannelsAlike, DeviceFieldAgrees, ChannelFieldAgrees, IsDeviceField, IsChannelField;
    var gs, ps := IndexDevices(go), IndexDevices(py);
    forall a | a in gs && a in ps
      ensures DevicesAlike(gs[a], ps[a]) <==> forall f :: !CountsIn(str, go, py, DeviceItem(a, f))
    {
      DeviceFieldsMean(gs[a], ps[a]);
      forall f ensures CountsIn(str, go, py, DeviceItem(a, f)) <==> IsDeviceField(f) && !DeviceFieldAgrees(gs[a], ps[a], f) {}
    }
    forall a, n | a in gs && a in ps && n in IndexChannels(gs[a].channels) && n in IndexChannels(ps[a].channels)
      ensures ChannelsAlike(IndexChannels(gs[a].channels)[n], IndexChannels(ps[a].channels)[n])
        <==> forall f :: !CountsIn(str, go, py, ChannelItem(a, n, f))
    {
      var g, p := IndexChannels(gs[a].channels)[n], IndexChannels(ps[a].channels)[n];
      ChannelFieldsMean(g, p);
      forall f ensures CountsIn(str, go, py, ChannelItem(a, n, f)) <==> IsChannelField(f) && !ChannelFieldAgrees(g, p, f) {}
    }
    FieldItemsAreShared(str, go, py);
    hide CountsIn;
  }

  lemma FieldItemsAreShared(str: Value -> string, go: seq<Device>, py: seq<Device>)
    ensures forall i :: CountsIn(str, go, py, i) ==>
      && i.a in IndexDevices(go) && i.a in IndexDevices(py)
      && (i.ChannelItem? ==>
            i.n in IndexChannels(IndexDevices(go)[i.a].channels) && i.n in IndexChannels(IndexDevices(py)[i.a].channels))
  {
    hide IndexDevices, IndexChannels, CountsInChannel;
  }

  lemma NoItems(str: Value -> string, go: seq<Device>, py: seq<Device>, items: set<Item>)
    requires forall i :: i in items <==> CountsIn(str, go, py, i)
    ensures items == {} <==> forall i: Item :: !CountsIn(str, go, py, i)
  {
    hide CountsIn;
  }

  lemma NoneMissing(theirs: set<string>, ours: set<string>)
    ensures theirs - ours == {} <==> theirs <= ours
  {
    if theirs - ours == {} {
      forall a | a in theirs ensures a in ours {
        assert a !in theirs - ours;
      }
    }
  }

  lemma NothingTallied(counts: map<Bucket, nat>, items: set<Item>)
    requires Tally(counts, items)
    ensures (forall b :: CountOf(counts, b) == 0) <==> items == {}
  {
    forall i | i in items ensures CountOf(counts, BucketOf(i)) > 0 {
      assert i in Of(items, BucketOf(i));
    }
    if items == {} {
      assert forall b :: Of(items, b) == {};
    }
  }

  const DEFAULT_BASELINES: map<Bucket, int> :=
    map[Drifted(GenericDps) := 10, ChannelFields := 0, OnlyPy(CustomDps) := 0, Drifted(CalculatedDps) := 0]

  /** The gate on a report: 2 without one, 0 when every bucket keeps to its baseline, and those
      without a baseline are empty. */
  method DriftCheck(report: Option<Report>, baselines: map<Bucket, int>, missingBaseline: int) returns (exit: nat)
    ensures exit == 2 <==> report.None?
    ensures exit == 0 <==> report.Some? && CheckPasses(report.value, baselines, missingBaseline)
  {
    if report.None? {
      return 2;
    }
    var counts := report.value.counts;
    var failures := 0;
    if |report.value.missing| > missingBaseline {
      failures := failures + 1;
    }
    var todo := baselines.Keys;
    while todo != {}
      invariant todo <= baselines.Keys && failures >= 0
      invariant failures == 0 <==>
        |report.value.missing| <= missingBaseline && forall b :: b in baselines.Keys - todo ==> CountOf(counts, b) <= baselines[b]
      decreases |todo|
    {
      var b :| b in todo;
      if CountOf(counts, b) > baselines[b] {
        failures := failures + 1;
      }
      todo := todo - {b};
    }
    var rest := counts.Keys;
    while rest != {}
      invariant rest <= counts.Keys && failures >= 0
      invariant failures == 0 <==>
        && |report.value.missing| <= missingBaseline
        && (forall b :: b in baselines ==> CountOf(counts, b) <= baselines[b])
        && (forall b :: b in counts.Keys - rest && b !in baselines ==> CountOf(counts, b) == 0)
      decreases |rest|
    {
      var b :| b in rest;
      if b !in baselines && counts[b] != 0 {
        failures := failures + 1;
      }
      rest := rest - {b};
    }
    exit := if failures == 0 then 0 else 1;
  }

  ghost predicate CheckPasses(r: Report, baselines: map<Bucket, int>, missingBaseline: int) {
    && |r.missing| <= missingBaseline
    && (forall b :: b in baselines ==> CountOf(r.counts, b) <= baselines[b])
    && (forall b :: b in r.counts && b !in baselines ==> CountOf(r.counts, b) == 0)
  }

  /** What the diff says of its report. */
  ghost predicate Reports(str: Value -> string, go: seq<Device>, py: seq<Device>, r: Report, items: set<Item>) {
    && Tally(r.counts, items) && (forall i :: i in items <==> CountsIn(str, go, py, i))
    && r.missing == IndexDevices(py).Keys - IndexDevices(go).Keys
  }

  /** With all baselines zero, whichever buckets have one, the check passes on the diff's report
      exactly when the diff exits 0. */
  lemma ZeroBaselinesAgree(str: Value -> string, go: seq<Device>, py: seq<Device>, r: Report, items: set<Item>, baselines: map<Bucket, int>)
    requires Reports(str, go, py, r, items) && forall b :: b in baselines ==> baselines[b] == 0
    ensures CheckPasses(r, baselines, 0) <==> Covered(go, py)
  {
    hide Covered, CountsIn, IndexDevices;
    NothingTallied(r.counts, items);
    NoItems(str, go, py, items);
    CoveredIs(str, go, py);
    NoneMissing(IndexDevices(py).Keys, IndexDevices(go).Keys);
    hide Tally;
    if CheckPasses(r, baselines, 0) {
      forall b ensures CountOf(r.counts, b) == 0 {
        assert b in r.counts && b !in baselines ==> CountOf(r.counts, b) == 0;
      }
    }
  }

  /** The default baselines let at most ten drifted generic data points pass, and nothing else. */
  lemma DefaultBaselinesAllow(str: Value -> string, go: seq<Device>, py: seq<Device>, r: Report, items: set<Item>)
    requires Reports(str, go, py, r, items)
    ensures CheckPasses(r, DEFAULT_BASELINES, 0) <==>
      && IndexDevices(py).Keys <= IndexDevices(go).Keys
      && (forall i :: CountsIn(str, go, py, i) ==> BucketOf(i) == Drifted(GenericDps))
      && |Of(items, Drifted(GenericDps))| <= 10
  {
    hide CountsIn, IndexDevices;
    NoneMissing(IndexDevices(py).Keys, IndexDevices(go).Keys);
    assert CheckPasses(r, DEFAULT_BASELINES, 0) <==>
      r.missing == {} && CountOf(r.counts, Drifted(GenericDps)) <= 10
      && forall b :: b != Drifted(GenericDps) ==> CountOf(r.counts, b) == 0 by { hide Tally; DefaultChecks(r); }
    if forall b :: b != Drifted(GenericDps) ==> CountOf(r.counts, b) == 0 {
      forall i | i in items ensures BucketOf(i) == Drifted(GenericDps) {
        assert i in Of(items, BucketOf(i));
      }
    }
    if forall i :: i in items ==> BucketOf(i) == Drifted(GenericDps) {
      forall b | b != Drifted(GenericDps) ensures CountOf(r.counts, b) == 0 {
        assert Of(items, b) == {};
      }
    }
  }

  lemma DefaultChecks(r: Report)
    ensures CheckPasses(r, DEFAULT_BASELINES, 0) <==>
      && r.missing == {} && CountOf(r.counts, Drifted(GenericDps)) <= 10
      && forall b :: b != Drifted(GenericDps) ==> CountOf(r.counts, b) == 0
  {
    if CheckPasses(r, DEFAULT_BASELINES, 0) {
      forall b | b != Drifted(GenericDps) ensures CountOf(r.counts, b) == 0 {
        assert b in r.counts && b !in DEFAULT_BASELINES ==> CountOf(r.counts, b) == 0;
      }
    }
  }
}
