/** The daemon's config map and its cached copy, kept in step with the probes (daemon/discover/discover.go). */
module DeviceConfigMap {
  import opened Wrappers
  import opened DeviceLists

  type Data = map<string, string>

  const KEY := "devices"

  /** Writing and reading device lists as JSON. */
  datatype Codec = Codec(marshal: seq<LocalDisk> -> string, unmarshal: string -> Option<seq<LocalDisk>>)

  ghost predicate RoundTrips(codec: Codec) {
    forall devices :: codec.unmarshal(codec.marshal(devices)) == Some(devices)
  }

  /** The cached copy (nil before the first call) and the API server's object. */
  datatype State = State(cached: Option<Data>, stored: Option<Data>)

  function Content(data: Data): string {
    if KEY in data then data[KEY] else ""
  }

  /** DeviceListsEqual over the two texts; None when one of them does not parse. */
  ghost function TextsEqual(codec: Codec, before: string, now: string): Option<bool> {
    match (codec.unmarshal(before), codec.unmarshal(now))
    case (Some(a), Some(b)) => Some(ListsEqual(a, b))
    case _ => None
  }

  /** One call of updateDeviceCM with successful API calls; None is a failed probe. */
  ghost function Sync(codec: Codec, s: State, probe: Option<seq<LocalDisk>>): (r: (State, bool)) {
    if probe.None? then (s, false)
    else
      var text := codec.marshal(probe.value);
      var found := if s.cached.Some? then s.cached else s.stored;
      var data := if found.Some? then found.value else map[KEY := text];
      var next := State(Some(data), if found.Some? then s.stored else Some(data));
      match TextsEqual(codec, if found.Some? then Content(data) else text, text)
      case None => (next, false)
      case Some(equal) => (if equal then next else State(Some(map[KEY := text]), Some(map[KEY := text])), true)
  }

  class DiscoverDaemon {
    const codec: Codec
    var cm: Option<Data>
    var lastDevice: string
    var stored: Option<Data>

    constructor (codec: Codec, stored: Option<Data>)
      ensures this.codec == codec && this.stored == stored && cm == None
    {
      this.codec, this.stored := codec, stored;
      cm, lastDevice := None, "";
    }

    method DeviceListsEqual(before: string, now: string) returns (r: Option<bool>)
      ensures r == TextsEqual(codec, before, now)
    {
      var oldDevs := codec.unmarshal(before);
      if oldDevs.None? {
        return None;
      }
      var newDevs := codec.unmarshal(now);
      if newDevs.None? {
        return None;
      }
      var equal := CheckDeviceListsEqual(oldDevs.value, newDevs.value);
      return Some(equal);
    }

    method UpdateDeviceCM(probe: Option<seq<LocalDisk>>) returns (ok: bool)
      modifies this
      ensures (State(cm, stored), ok) == Sync(codec, State(old(cm), old(stored)), probe)
      ensures probe.None? ==> lastDevice == old(lastDevice)
      ensures probe.Some? ==> var found := if old(cm).Some? then old(cm) else old(stored);
        lastDevice == if found.Some? then Content(found.value) else codec.marshal(probe.value)
    {
      if probe.None? {
        return false;
      }
      var deviceStr := codec.marshal(probe.value);
      if cm == None {
        cm := stored;
      }
      if cm != None {
        lastDevice := Content(cm.value);
      } else {
        var data := map[KEY := deviceStr];
        cm := Some(data);
        stored := cm;
        lastDevice := deviceStr;
      }
      var devicesEqual := DeviceListsEqual(lastDevice, deviceStr);
      if devicesEqual.None? {
        return false;
      }
      if !devicesEqual.value {
        var data := map[KEY := deviceStr];
        cm := Some(data);
        stored := cm;
      }
      return true;
    }
  }

  // ---------- every run of a single writer ----------

  ghost function After(codec: Codec, s: State, probes: seq<Option<seq<LocalDisk>>>): State {
    if probes == [] then s else Sync(codec, After(codec, s, probes[..|probes|-1]), probes[|probes|-1]).0
  }

  /** The copy, once taken, is the stored object, and what is stored can be read. */
  ghost predicate Tracking(codec: Codec, s: State) {
    && (s.cached.Some? ==> s.cached == s.stored)
    && (s.stored.Some? ==> codec.unmarshal(Content(s.stored.value)).Some?)
  }

  /** The stored list stands for a probe: it is exactly that probe, or equal to it as device lists go. */
  ghost predicate Represents(codec: Codec, s: State, probe: seq<LocalDisk>) {
    && s.stored.Some? && s.cached == s.stored
    && var text := Content(s.stored.value);
       text == codec.marshal(probe) || (codec.unmarshal(text).Some? && ListsEqual(codec.unmarshal(text).value, probe))
  }

  lemma SyncStep(codec: Codec, s: State, probe: Option<seq<LocalDisk>>)
    requires RoundTrips(codec) && Tracking(codec, s)
    ensures Tracking(codec, Sync(codec, s, probe).0)
    ensures Sync(codec, s, probe).1 <==> probe.Some?
    ensures probe.Some? ==> Represents(codec, Sync(codec, s, probe).0, probe.value)
    ensures probe.None? ==> Sync(codec, s, probe).0 == s
  {
    if probe.Some? {
      assert codec.unmarshal(codec.marshal(probe.value)) == Some(probe.value);
    }
  }

  /** The list that is stored, as far as it can be read. */
  ghost function StoredList(codec: Codec, s: State): Option<seq<LocalDisk>> {
    if s.stored.None? then None else codec.unmarshal(Content(s.stored.value))
  }

  /** What a probe leaves stored: nothing is written unless it found something new, and then exactly the probe. */
  lemma SyncWritesIff(codec: Codec, s: State, probe: Option<seq<LocalDisk>>)
    requires RoundTrips(codec) && Tracking(codec, s)
    ensures var s' := Sync(codec, s, probe).0;
      && (probe.None? ==> s' == s)
      && (probe.Some? && s.stored.Some? && ListsEqual(StoredList(codec, s).value, probe.value) ==>
            s'.stored == s.stored)
      && (probe.Some? && (s.stored.None? || !ListsEqual(StoredList(codec, s).value, probe.value)) ==>
            s'.stored == Some(map["devices" := codec.marshal(probe.value)]))
  {
    if probe.Some? {
      assert codec.unmarshal(codec.marshal(probe.value)) == Some(probe.value);
    }
  }

  /** A probe that found something the stored list does not stand for. */
  ghost predicate FoundNews(codec: Codec, s: State, probe: Option<seq<LocalDisk>>) {
    probe.Some? && (StoredList(codec, s).None? || !ListsEqual(StoredList(codec, s).value, probe.value))
  }

  /** The stored list at any time is the last of the probes that found news when they were made; before the
      first of them it is what it was. */
  lemma {:induction false} StoredIsLastNews(codec: Codec, s: State, probes: seq<Option<seq<LocalDisk>>>, k: nat)
    requires RoundTrips(codec) && Tracking(codec, s) && k <= |probes|
    requires k == 0 || FoundNews(codec, After(codec, s, probes[..k-1]), probes[k-1])
    requires forall j | k <= j < |probes| :: !FoundNews(codec, After(codec, s, probes[..j]), probes[j])
    ensures After(codec, s, probes).stored ==
      if k == 0 then s.stored else Some(map["devices" := codec.marshal(probes[k-1].value)])
    decreases |probes|
  {
    ConfigMapTracksProbes(codec, s, probes);
    if probes != [] {
      var init, last := probes[..|probes|-1], probes[|probes|-1];
      ConfigMapTracksProbes(codec, s, init);
      SyncWritesIff(codec, After(codec, s, init), last);
      if k < |probes| {
        assert !FoundNews(codec, After(codec, s, probes[..|probes|-1]), probes[|probes|-1]);
        assert k > 0 ==> init[..k-1] == probes[..k-1];
        forall j | k <= j < |init|
          ensures !FoundNews(codec, After(codec, s, init[..j]), init[j])
        {
          assert init[..j] == probes[..j];
        }
        StoredIsLastNews(codec, s, init, k);
      } else {
        assert probes[..k-1] == init;
      }
    }
  }

  ghost predicate LastProbe(probes: seq<Option<seq<LocalDisk>>>, k: int) {
    0 <= k < |probes| && probes[k].Some? && forall j | k < j < |probes| :: probes[j].None?
  }

  /** However many probes, failed ones among them: the stored object stands for the last successful probe,
      and the cached copy is the stored object, although list equality composes neither way. */
  lemma {:induction false} ConfigMapTracksProbes(codec: Codec, s: State, probes: seq<Option<seq<LocalDisk>>>)
    requires RoundTrips(codec) && Tracking(codec, s)
    ensures Tracking(codec, After(codec, s, probes))
    ensures forall k | LastProbe(probes, k) :: Represents(codec, After(codec, s, probes), probes[k].value)
    ensures (forall k | 0 <= k < |probes| :: probes[k].None?) ==> After(codec, s, probes) == s
  {
    if probes != [] {
      var init, last := probes[..|probes|-1], probes[|probes|-1];
      ConfigMapTracksProbes(codec, s, init);
      SyncStep(codec, After(codec, s, init), last);
      forall k | LastProbe(probes, k)
        ensures Represents(codec, After(codec, s, probes), probes[k].value)
      {
        assert k < |probes| - 1 ==> last.None? && LastProbe(init, k);
      }
    }
  }

  /** A stored text that cannot be read is never repaired: every call fails and leaves it as it is. */
  lemma {:induction false} UnreadableStays(codec: Codec, s: State, probes: seq<Option<seq<LocalDisk>>>)
    requires s.stored.Some? && (s.cached.Some? ==> s.cached == s.stored)
    requires codec.unmarshal(Content(s.stored.value)).None?
    ensures After(codec, s, probes).stored == s.stored
    ensures After(codec, s, probes).cached.Some? ==> After(codec, s, probes).cached == s.stored
    ensures forall probe :: !Sync(codec, After(codec, s, probes), probe).1
  {
    if probes != [] {
      UnreadableStays(codec, s, probes[..|probes|-1]);
    }
  }
}
