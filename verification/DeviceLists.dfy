/** When two probes of a node's devices count as equal (daemon/discover/discover.go). */
module DeviceLists {
  import opened Wrappers

  /** The fields the comparison looks at; `rest` stands for all the others. `partitions` may be nil. */
  datatype LocalDisk = LocalDisk(
    name: string, devLinks: string, uuid: string, serial: string,
    partitions: Option<seq<string>>, empty: bool, cephVolumeData: string, rest: string)

  /** strings.ToUpper, as far as the letters of "USB" are concerned: U+017F is the other lower-case s. */
  function Upper(c: char): char {
    if c == 'u' then 'U' else if c == 's' || c == '\U{17F}' then 'S' else if c == 'b' then 'B' else c
  }

  predicate UsbAt(s: string, i: int) {
    0 <= i && i + 2 < |s| && Upper(s[i]) == 'U' && Upper(s[i+1]) == 'S' && Upper(s[i+2]) == 'B'
  }

  predicate Ignored(d: LocalDisk) {
    exists i | 0 <= i < |d.devLinks| :: UsbAt(d.devLinks, i)
  }

  /** One device as far as anyone can tell: uuids are unstable, serials may be empty. */
  predicate Same(d: LocalDisk, e: LocalDisk) {
    d.uuid == e.uuid || (d.serial == e.serial && d.serial != "") || d.name == e.name
  }

  /** No change from old to new that storage daemons would care about. */
  predicate Unchanged(before: LocalDisk, now: LocalDisk) {
    && !(!before.empty && now.empty)
    && !(before.partitions.Some? && now.partitions.None?)
    && !(before.cephVolumeData == "" && now.cephVolumeData != "")
  }

  function FirstMatch(d: LocalDisk, devices: seq<LocalDisk>): (m: Option<LocalDisk>)
    ensures m.Some? ==> m.value in devices && !Ignored(m.value) && Same(d, m.value)
    ensures m.None? ==> forall e | e in devices && !Ignored(e) :: !Same(d, e)
  {
    if devices == [] then None
    else if !Ignored(devices[0]) && Same(d, devices[0]) then Some(devices[0])
    else FirstMatch(d, devices[1..])
  }

  predicate StillThere(d: LocalDisk, newDevs: seq<LocalDisk>) {
    var m := FirstMatch(d, newDevs);
    m.Some? && Unchanged(d, m.value)
  }

  ghost predicate ListsEqual(oldDevs: seq<LocalDisk>, newDevs: seq<LocalDisk>) {
    && (forall d | d in oldDevs && !Ignored(d) :: StillThere(d, newDevs))
    && (forall d | d in newDevs && !Ignored(d) :: FirstMatch(d, oldDevs).Some?)
  }

  // ---------- the loops ----------

  /** Go returns a pointer into the slice; the model returns the device it points to. */
  method CheckMatchingDevice(checkDev: LocalDisk, devices: seq<LocalDisk>) returns (m: Option<LocalDisk>)
    ensures m == FirstMatch(checkDev, devices)
  {
    for i := 0 to |devices|
      invariant FirstMatch(checkDev, devices[i..]) == FirstMatch(checkDev, devices)
    {
      var dev := devices[i];
      assert devices[i..][1..] == devices[i+1..];
      var sameSerial := checkDev.serial == dev.serial && checkDev.serial != "";
      if !Ignored(dev) && (checkDev.uuid == dev.uuid || sameSerial || checkDev.name == dev.name) {
        return Some(dev);
      }
    }
    return None;
  }

  method CheckDeviceListsEqual(oldDevs: seq<LocalDisk>, newDevs: seq<LocalDisk>) returns (equal: bool)
    ensures equal <==> ListsEqual(oldDevs, newDevs)
  {
    for i := 0 to |oldDevs|
      invariant forall d | d in oldDevs[..i] && !Ignored(d) :: StillThere(d, newDevs)
    {
      var oldDev := oldDevs[i];
      if !Ignored(oldDev) {
        var found := CheckMatchingDevice(oldDev, newDevs);
        if found.None? {
          return false;
        }
        if !oldDev.empty && found.value.empty {
          return false;
        }
        if oldDev.partitions.Some? && found.value.partitions.None? {
          return false;
        }
        if oldDev.cephVolumeData == "" && found.value.cephVolumeData != "" {
          return false;
        }
      }
    }
    for i := 0 to |newDevs|
      invariant forall d | d in newDevs[..i] && !Ignored(d) :: FirstMatch(d, oldDevs).Some?
    {
      if !Ignored(newDevs[i]) {
        var found := CheckMatchingDevice(newDevs[i], oldDevs);
        if found.None? {
          return false;
        }
      }
    }
    return true;
  }

  // ---------- the verdict, field by field ----------

  /** The i-th device of a list counts: its links do not name a USB device, in any mixture of cases. */
  ghost predicate CountsAt(devices: seq<LocalDisk>, i: int) {
    && 0 <= i < |devices|
    && forall k | 0 <= k < |devices[i].devLinks| - 2 ::
      var s := devices[i].devLinks;
      !(s[k] in {'u', 'U'} && s[k+1] in {'s', 'S', '\U{17F}'} && s[k+2] in {'b', 'B'})
  }

  /** The j-th device of a list counts, and has the uuid, the serial that is not empty, or the name of d. */
  ghost predicate MatchesAt(d: LocalDisk, devices: seq<LocalDisk>, j: int) {
    && CountsAt(devices, j)
    && (d.uuid == devices[j].uuid || d.name == devices[j].name || (d.serial == devices[j].serial && |d.serial| > 0))
  }

  ghost predicate FirstMatchAt(d: LocalDisk, devices: seq<LocalDisk>, j: int) {
    MatchesAt(d, devices, j) && forall k | 0 <= k < j :: !MatchesAt(d, devices, k)
  }

  /** The first match is at j, and it was not emptied, did not lose its partitions, and did not come under
      Ceph's volumes. */
  ghost predicate StillThereAt(d: LocalDisk, newDevs: seq<LocalDisk>, j: int) {
    && FirstMatchAt(d, newDevs, j)
    && (newDevs[j].empty ==> d.empty)
    && (newDevs[j].partitions == None ==> d.partitions == None)
    && (newDevs[j].cephVolumeData != "" ==> d.cephVolumeData != "")
  }

  lemma CountsMeans(devices: seq<LocalDisk>, i: int)
    requires 0 <= i < |devices|
    ensures CountsAt(devices, i) <==> !Ignored(devices[i])
  {
    var s := devices[i].devLinks;
    forall k | 0 <= k < |s| - 2
      ensures UsbAt(s, k) <==> s[k] in {'u', 'U'} && s[k+1] in {'s', 'S', '\U{17F}'} && s[k+2] in {'b', 'B'}
    {
    }
    if Ignored(devices[i]) {
      var k :| 0 <= k < |s| && UsbAt(s, k);
      assert 0 <= k < |s| - 2;
    }
  }

  lemma {:induction false} FirstMatchMeans(d: LocalDisk, devices: seq<LocalDisk>)
    ensures FirstMatch(d, devices).None? ==> forall j :: !MatchesAt(d, devices, j)
    ensures FirstMatch(d, devices).Some? ==>
      exists j :: FirstMatchAt(d, devices, j) && devices[j] == FirstMatch(d, devices).value
  {
    if devices != [] {
      CountsMeans(devices, 0);
      var rest := devices[1..];
      forall j | 1 <= j < |devices|
        ensures MatchesAt(d, devices, j) <==> MatchesAt(d, rest, j - 1)
      {
        assert devices[j] == rest[j-1];
      }
      if MatchesAt(d, devices, 0) {
        assert FirstMatchAt(d, devices, 0);
      } else {
        FirstMatchMeans(d, rest);
        if FirstMatch(d, rest).Some? {
          var j :| FirstMatchAt(d, rest, j) && rest[j] == FirstMatch(d, rest).value;
          assert FirstMatchAt(d, devices, j + 1);
        }
      }
    }
  }

  /** The verdict is "equal" if and only if every old device that counts has a first match among the new ones
      that was not emptied, did not lose its partitions, and did not come under Ceph's volumes; and every new
      device that counts has a match among the old ones. */
  lemma EqualMeans(oldDevs: seq<LocalDisk>, newDevs: seq<LocalDisk>)
    ensures ListsEqual(oldDevs, newDevs) <==>
      && (forall i | CountsAt(oldDevs, i) :: exists j :: StillThereAt(oldDevs[i], newDevs, j))
      && (forall i | CountsAt(newDevs, i) :: exists j :: MatchesAt(newDevs[i], oldDevs, j))
  {
    OldSideMeans(oldDevs, newDevs);
    NewSideMeans(oldDevs, newDevs);
  }

  lemma StillThereMeans(d: LocalDisk, newDevs: seq<LocalDisk>)
    ensures StillThere(d, newDevs) <==> exists j :: StillThereAt(d, newDevs, j)
  {
    FirstMatchMeans(d, newDevs);
    if FirstMatch(d, newDevs).Some? {
      var j :| FirstMatchAt(d, newDevs, j) && newDevs[j] == FirstMatch(d, newDevs).value;
      assert StillThere(d, newDevs) <==> StillThereAt(d, newDevs, j);
      assert forall k | FirstMatchAt(d, newDevs, k) :: k == j;
    }
  }

  lemma OldSideMeans(oldDevs: seq<LocalDisk>, newDevs: seq<LocalDisk>)
    ensures (forall d | d in oldDevs && !Ignored(d) :: StillThere(d, newDevs)) <==>
      forall i | CountsAt(oldDevs, i) :: exists j :: StillThereAt(oldDevs[i], newDevs, j)
  {
    forall i | 0 <= i < |oldDevs|
      ensures CountsAt(oldDevs, i) <==> !Ignored(oldDevs[i])
      ensures StillThere(oldDevs[i], newDevs) <==> exists j :: StillThereAt(oldDevs[i], newDevs, j)
    {
      CountsMeans(oldDevs, i);
      StillThereMeans(oldDevs[i], newDevs);
    }
  }

  lemma NewSideMeans(oldDevs: seq<LocalDisk>, newDevs: seq<LocalDisk>)
    ensures (forall d | d in newDevs && !Ignored(d) :: FirstMatch(d, oldDevs).Some?) <==>
      forall i | CountsAt(newDevs, i) :: exists j :: MatchesAt(newDevs[i], oldDevs, j)
  {
    forall i | 0 <= i < |newDevs|
      ensures CountsAt(newDevs, i) <==> !Ignored(newDevs[i])
      ensures FirstMatch(newDevs[i], oldDevs).Some? <==> exists j :: MatchesAt(newDevs[i], oldDevs, j)
    {
      CountsMeans(newDevs, i);
      FirstMatchMeans(newDevs[i], oldDevs);
    }
  }

  // ---------- what the comparison does not look at ----------

  function Kept(devices: seq<LocalDisk>): (kept: seq<LocalDisk>)
    ensures forall d :: d in kept <==> d in devices && !Ignored(d)
  {
    if devices == [] then [] else (if Ignored(devices[0]) then [] else [devices[0]]) + Kept(devices[1..])
  }

  lemma {:induction false} MatchAmongKept(d: LocalDisk, devices: seq<LocalDisk>)
    ensures FirstMatch(d, Kept(devices)) == FirstMatch(d, devices)
  {
    if devices != [] {
      MatchAmongKept(d, devices[1..]);
      var rest := Kept(devices[1..]);
      if Ignored(devices[0]) {
        assert Kept(devices) == rest;
      } else {
        assert Kept(devices)[1..] == rest;
      }
    }
  }

  /** USB devices make no difference on either side. */
  lemma UsbIsIgnored(oldDevs: seq<LocalDisk>, newDevs: seq<LocalDisk>)
    ensures ListsEqual(oldDevs, newDevs) <==> ListsEqual(Kept(oldDevs), Kept(newDevs))
  {
    forall d
      ensures FirstMatch(d, Kept(newDevs)) == FirstMatch(d, newDevs)
        && FirstMatch(d, Kept(oldDevs)) == FirstMatch(d, oldDevs)
    {
      MatchAmongKept(d, newDevs);
      MatchAmongKept(d, oldDevs);
    }
  }

  // ---------- order ----------

  ghost predicate SameElements(a: seq<LocalDisk>, b: seq<LocalDisk>) {
    forall d :: d in a <==> d in b
  }

  lemma PermutationHasSameElements(a: seq<LocalDisk>, b: seq<LocalDisk>)
    requires multiset(a) == multiset(b)
    ensures SameElements(a, b)
  {
    assert forall d :: d in a <==> d in multiset(a);
    assert forall d :: d in b <==> d in multiset(b);
  }

  /** The old list is looked at as a set: neither order nor repetition counts. */
  lemma OldOrderIrrelevant(oldDevs: seq<LocalDisk>, oldDevs': seq<LocalDisk>, newDevs: seq<LocalDisk>)
    requires SameElements(oldDevs, oldDevs')
    ensures ListsEqual(oldDevs, newDevs) <==> ListsEqual(oldDevs', newDevs)
  {
    assert forall d :: FirstMatch(d, oldDevs).Some? <==> FirstMatch(d, oldDevs').Some?;
  }

  ghost predicate Counts(d: LocalDisk, devices: seq<LocalDisk>) {
    d in devices && !Ignored(d)
  }

  ghost predicate HasMatch(d: LocalDisk, devices: seq<LocalDisk>) {
    exists x :: Counts(x, devices) && Same(d, x)
  }

  lemma FirstMatchExists(d: LocalDisk, devices: seq<LocalDisk>)
    ensures FirstMatch(d, devices).Some? <==> HasMatch(d, devices)
  {
    var m := FirstMatch(d, devices);
    assert m.Some? ==> Counts(m.value, devices) && Same(d, m.value);
  }

  /** Every device that counts has a match on the other side. */
  ghost predicate Paired(a: seq<LocalDisk>, b: seq<LocalDisk>) {
    (forall d | Counts(d, a) :: HasMatch(d, b)) && (forall x | Counts(x, b) :: HasMatch(x, a))
  }

  /** No match that counts is a change. */
  ghost predicate MatchesUnchanged(oldDevs: seq<LocalDisk>, newDevs: seq<LocalDisk>) {
    forall d, x | Counts(d, oldDevs) && Counts(x, newDevs) && Same(d, x) :: Unchanged(d, x)
  }

  ghost predicate EqualInEveryOrder(oldDevs: seq<LocalDisk>, newDevs: seq<LocalDisk>) {
    forall shuffled | multiset(shuffled) == multiset(newDevs) :: ListsEqual(oldDevs, shuffled)
  }

  lemma EqualIsPaired(oldDevs: seq<LocalDisk>, newDevs: seq<LocalDisk>)
    requires ListsEqual(oldDevs, newDevs)
    ensures Paired(oldDevs, newDevs)
  {
    forall d | Counts(d, oldDevs)
      ensures HasMatch(d, newDevs)
    {
      assert StillThere(d, newDevs);
      FirstMatchExists(d, newDevs);
    }
    forall x | Counts(x, newDevs)
      ensures HasMatch(x, oldDevs)
    {
      FirstMatchExists(x, oldDevs);
    }
  }

  /** The new list with one of its devices moved to the front. */
  lemma MoveToFront(x: LocalDisk, devices: seq<LocalDisk>) returns (rest: seq<LocalDisk>)
    requires x in devices
    ensures multiset([x] + rest) == multiset(devices)
  {
    var k :| 0 <= k < |devices| && devices[k] == x;
    rest := devices[..k] + devices[k+1..];
    assert devices == devices[..k] + [x] + devices[k+1..];
  }

  lemma PairedAndUnchangedIsEqual(oldDevs: seq<LocalDisk>, newDevs: seq<LocalDisk>, shuffled: seq<LocalDisk>)
    requires SameElements(shuffled, newDevs) && Paired(oldDevs, newDevs) && MatchesUnchanged(oldDevs, newDevs)
    ensures ListsEqual(oldDevs, shuffled)
  {
    assert forall x :: Counts(x, shuffled) <==> Counts(x, newDevs);
    forall d | Counts(d, oldDevs)
      ensures StillThere(d, shuffled)
    {
      assert HasMatch(d, newDevs);
      FirstMatchExists(d, shuffled);
      assert Counts(FirstMatch(d, shuffled).value, newDevs);
    }
    forall x | Counts(x, shuffled)
      ensures FirstMatch(x, oldDevs).Some?
    {
      assert HasMatch(x, oldDevs);
      FirstMatchExists(x, oldDevs);
    }
  }

  lemma {:induction false} EveryOrderHasNoChange(
      oldDevs: seq<LocalDisk>, newDevs: seq<LocalDisk>, d: LocalDisk, x: LocalDisk)
    requires EqualInEveryOrder(oldDevs, newDevs) && Counts(d, oldDevs) && Counts(x, newDevs) && Same(d, x)
    ensures Unchanged(d, x)
  {
    var rest := MoveToFront(x, newDevs);
    assert ListsEqual(oldDevs, [x] + rest) && StillThere(d, [x] + rest);
  }

  /** The lists are equal whatever the order of the new one exactly when every device that counts has a match
      on the other side and no match is a change. */
  lemma {:induction false} EqualInEveryOrderIff(oldDevs: seq<LocalDisk>, newDevs: seq<LocalDisk>)
    ensures EqualInEveryOrder(oldDevs, newDevs) <==> Paired(oldDevs, newDevs) && MatchesUnchanged(oldDevs, newDevs)
  {
    if EqualInEveryOrder(oldDevs, newDevs) {
      EqualIsPaired(oldDevs, newDevs);
      forall d, x | Counts(d, oldDevs) && Counts(x, newDevs) && Same(d, x)
        ensures Unchanged(d, x)
      {
        EveryOrderHasNoChange(oldDevs, newDevs, d, x);
      }
    }
    if Paired(oldDevs, newDevs) && MatchesUnchanged(oldDevs, newDevs) {
      forall shuffled | multiset(shuffled) == multiset(newDevs)
        ensures ListsEqual(oldDevs, shuffled)
      {
        PermutationHasSameElements(shuffled, newDevs);
        PairedAndUnchangedIsEqual(oldDevs, newDevs, shuffled);
      }
    }
  }

  /** So a verdict of "equal" holds up under every permutation of the new list exactly when no match is a change. */
  lemma EqualityIsStableIff(oldDevs: seq<LocalDisk>, newDevs: seq<LocalDisk>)
    requires ListsEqual(oldDevs, newDevs)
    ensures EqualInEveryOrder(oldDevs, newDevs) <==> MatchesUnchanged(oldDevs, newDevs)
  {
    EqualIsPaired(oldDevs, newDevs);
    EqualInEveryOrderIff(oldDevs, newDevs);
  }

  ghost predicate EqualInSomeOrder(oldDevs: seq<LocalDisk>, newDevs: seq<LocalDisk>) {
    exists shuffled :: multiset(shuffled) == multiset(newDevs) && ListsEqual(oldDevs, shuffled)
  }

  /** A new device blocks a group of old ones: one of them matches it, and for one of them it is a change. */
  ghost predicate Blocks(x: LocalDisk, group: set<LocalDisk>) {
    exists d :: d in group && Same(d, x) && !Unchanged(d, x)
  }

  ghost predicate Touches(x: LocalDisk, group: set<LocalDisk>) {
    exists d :: d in group && Same(d, x)
  }

  /** Old devices none of which can be satisfied first: every new device that matches one of them blocks. */
  ghost predicate Stuck(group: set<LocalDisk>, newDevs: seq<LocalDisk>) {
    group != {} && forall x | Counts(x, newDevs) && Touches(x, group) :: Blocks(x, group)
  }

  ghost predicate AllStillThere(group: set<LocalDisk>, newDevs: seq<LocalDisk>) {
    forall d | d in group :: StillThere(d, newDevs)
  }

  /** Whichever device of the list matches a stuck group first, it is a change for one of the group. */
  lemma {:induction false} StuckStaysStuck(group: set<LocalDisk>, newDevs: seq<LocalDisk>)
    requires Stuck(group, newDevs)
    ensures !AllStillThere(group, newDevs)
  {
    var first :| first in group;
    if newDevs == [] {
      assert !StillThere(first, newDevs);
    } else if !Ignored(newDevs[0]) && Touches(newDevs[0], group) {
      assert Counts(newDevs[0], newDevs);
      var d :| d in group && Same(d, newDevs[0]) && !Unchanged(d, newDevs[0]);
      assert !StillThere(d, newDevs);
    } else {
      assert forall x | Counts(x, newDevs[1..]) :: Counts(x, newDevs);
      StuckStaysStuck(group, newDevs[1..]);
      var d :| d in group && !StillThere(d, newDevs[1..]);
      assert !Ignored(newDevs[0]) ==> !Same(d, newDevs[0]);
      assert !StillThere(d, newDevs);
    }
  }

  /** Without a stuck group some order satisfies all: put a device first that blocks nobody, and go on with the
      old devices that it does not match. */
  lemma {:induction false} UnstuckOrder(group: set<LocalDisk>, newDevs: seq<LocalDisk>)
    returns (shuffled: seq<LocalDisk>)
    requires forall g | g <= group :: !Stuck(g, newDevs)
    ensures multiset(shuffled) == multiset(newDevs) && AllStillThere(group, shuffled)
    decreases |group|
  {
    if group == {} {
      return newDevs;
    }
    assert !Stuck(group, newDevs);
    var x :| Counts(x, newDevs) && Touches(x, group) && !Blocks(x, group);
    var rest := MoveToFront(x, newDevs);
    PermutationHasSameElements([x] + rest, newDevs);
    var others := set d | d in group && !Same(d, x);
    var served :| served in group && Same(served, x);
    assert served !in others && others < group;
    ProperSubsetIsSmaller(others, group);
    forall g | g <= others
      ensures !Stuck(g, rest)
    {
      RestIsNotStuck(g, x, rest, newDevs);
    }
    var ordered := UnstuckOrder(others, rest);
    shuffled := [x] + ordered;
    assert multiset(shuffled) == multiset([x]) + multiset(ordered) == multiset([x] + rest);
    forall d | d in group
      ensures StillThere(d, shuffled)
    {
      assert shuffled[1..] == ordered;
      assert d in others ==> StillThere(d, ordered);
    }
  }

  lemma ProperSubsetIsSmaller(a: set<LocalDisk>, b: set<LocalDisk>)
    requires a < b
    ensures |a| < |b|
  {
    assert b == a + (b - a) && b - a != {};
  }

  lemma RestIsNotStuck(group: set<LocalDisk>, x: LocalDisk, rest: seq<LocalDisk>, newDevs: seq<LocalDisk>)
    requires SameElements([x] + rest, newDevs)
    requires forall d | d in group :: !Same(d, x)
    requires !Stuck(group, newDevs)
    ensures !Stuck(group, rest)
  {
    assert !Touches(x, group);
    if group != {} {
      var y :| Counts(y, newDevs) && Touches(y, group) && !Blocks(y, group);
      assert y in [x] + rest && y != x;
      assert Counts(y, rest);
    }
  }

  ghost function Counting(devices: seq<LocalDisk>): set<LocalDisk> {
    set d | d in devices && !Ignored(d)
  }

  /** Some order of the new list makes the lists equal exactly when every device that counts has a match on
      the other side and no group of old devices is stuck. */
  lemma EqualInSomeOrderIff(oldDevs: seq<LocalDisk>, newDevs: seq<LocalDisk>)
    ensures EqualInSomeOrder(oldDevs, newDevs) <==>
      Paired(oldDevs, newDevs) && forall group | group <= Counting(oldDevs) :: !Stuck(group, newDevs)
  {
    if shuffled :| multiset(shuffled) == multiset(newDevs) && ListsEqual(oldDevs, shuffled) {
      PermutationHasSameElements(shuffled, newDevs);
      assert forall x :: Counts(x, shuffled) <==> Counts(x, newDevs);
      EqualIsPaired(oldDevs, shuffled);
      forall d | Counts(d, oldDevs)
        ensures HasMatch(d, newDevs)
      {
        assert HasMatch(d, shuffled);
      }
      forall group | group <= Counting(oldDevs)
        ensures !Stuck(group, newDevs)
      {
        if Stuck(group, newDevs) {
          assert Stuck(group, shuffled);
          StuckStaysStuck(group, shuffled);
          assert false;
        }
      }
    }
    if Paired(oldDevs, newDevs) && forall group | group <= Counting(oldDevs) :: !Stuck(group, newDevs) {
      var shuffled := UnstuckOrder(Counting(oldDevs), newDevs);
      PermutationHasSameElements(shuffled, newDevs);
      forall x | Counts(x, shuffled)
        ensures FirstMatch(x, oldDevs).Some?
      {
        assert HasMatch(x, oldDevs);
        FirstMatchExists(x, oldDevs);
      }
      assert ListsEqual(oldDevs, shuffled);
    }
  }

  /** The order of the new list is irrelevant exactly when no match is a change, or some device has no match,
      or some old devices are stuck. */
  lemma NewOrderIrrelevantIff(oldDevs: seq<LocalDisk>, newDevs: seq<LocalDisk>)
    ensures (forall a, b | multiset(a) == multiset(newDevs) && multiset(b) == multiset(newDevs) ::
              ListsEqual(oldDevs, a) <==> ListsEqual(oldDevs, b))
       <==> MatchesUnchanged(oldDevs, newDevs) || !Paired(oldDevs, newDevs)
            || exists group :: group <= Counting(oldDevs) && Stuck(group, newDevs)
  {
    EqualInEveryOrderIff(oldDevs, newDevs);
    EqualInSomeOrderIff(oldDevs, newDevs);
    if EqualInSomeOrder(oldDevs, newDevs) && !EqualInEveryOrder(oldDevs, newDevs) {
      var a :| multiset(a) == multiset(newDevs) && ListsEqual(oldDevs, a);
      var b :| multiset(b) == multiset(newDevs) && !ListsEqual(oldDevs, b);
    }
  }

  /** Every old device that counts matches at most one new device that counts. */
  ghost predicate Unambiguous(oldDevs: seq<LocalDisk>, newDevs: seq<LocalDisk>) {
    forall d, x, y | Counts(d, oldDevs) && Counts(x, newDevs) && Counts(y, newDevs) ::
      Same(d, x) && Same(d, y) ==> x == y
  }

  /** Enough for that: then the new list is looked at as a set, too. */
  lemma NewOrderIrrelevant(oldDevs: seq<LocalDisk>, newDevs: seq<LocalDisk>, newDevs': seq<LocalDisk>)
    requires SameElements(newDevs, newDevs') && Unambiguous(oldDevs, newDevs)
    ensures ListsEqual(oldDevs, newDevs) <==> ListsEqual(oldDevs, newDevs')
  {
    assert forall x :: Counts(x, newDevs) <==> Counts(x, newDevs');
    forall d | Counts(d, oldDevs)
      ensures FirstMatch(d, newDevs) == FirstMatch(d, newDevs')
    {
      var m, m' := FirstMatch(d, newDevs), FirstMatch(d, newDevs');
      assert m.Some? ==> Counts(m.value, newDevs');
      assert m'.Some? ==> Counts(m'.value, newDevs);
    }
  }

  // ---------- it is not an equivalence, and when it is like one ----------

  /** No device's first match is a change. */
  ghost predicate FirstMatchesUnchanged(oldDevs: seq<LocalDisk>, newDevs: seq<LocalDisk>) {
    forall d | Counts(d, oldDevs) && FirstMatch(d, newDevs).Some? :: Unchanged(d, FirstMatch(d, newDevs).value)
  }

  /** The comparison, taken apart: who has a match, and what the first matches are like. */
  lemma EqualIffPairedUnchanged(a: seq<LocalDisk>, b: seq<LocalDisk>)
    ensures ListsEqual(a, b) <==> Paired(a, b) && FirstMatchesUnchanged(a, b)
  {
    if ListsEqual(a, b) {
      EqualIsPaired(a, b);
      assert forall d | Counts(d, a) :: StillThere(d, b);
    }
    if Paired(a, b) && FirstMatchesUnchanged(a, b) {
      forall d | Counts(d, a)
        ensures StillThere(d, b)
      {
        assert HasMatch(d, b);
        FirstMatchExists(d, b);
      }
      forall x | Counts(x, b)
        ensures FirstMatch(x, a).Some?
      {
        assert HasMatch(x, a);
        FirstMatchExists(x, a);
      }
    }
  }

  /** A list equals itself exactly when no first match among its own devices is a change. */
  lemma EqualToItselfIff(devices: seq<LocalDisk>)
    ensures ListsEqual(devices, devices) <==> FirstMatchesUnchanged(devices, devices)
  {
    EqualIffPairedUnchanged(devices, devices);
    assert forall d | Counts(d, devices) :: Same(d, d) && HasMatch(d, devices);
  }

  /** Equal lists are equal the other way round exactly when no first match back is a change. */
  lemma SymmetricIff(a: seq<LocalDisk>, b: seq<LocalDisk>)
    requires ListsEqual(a, b)
    ensures ListsEqual(b, a) <==> FirstMatchesUnchanged(b, a)
  {
    EqualIffPairedUnchanged(a, b);
    EqualIffPairedUnchanged(b, a);
  }

  /** The first match of d in c is also the first match there of d's first match in b. */
  ghost predicate Through(d: LocalDisk, b: seq<LocalDisk>, c: seq<LocalDisk>) {
    FirstMatch(d, b).Some? && FirstMatch(d, c) == FirstMatch(FirstMatch(d, b).value, c)
  }

  /** If d has a first match in c that is not reached through b, it is no change. */
  ghost predicate BypassUnchanged(d: LocalDisk, b: seq<LocalDisk>, c: seq<LocalDisk>) {
    FirstMatch(d, c).Some? && !Through(d, b, c) ==> Unchanged(d, FirstMatch(d, c).value)
  }

  lemma UnchangedComposes(d: LocalDisk, e: LocalDisk, f: LocalDisk)
    requires Unchanged(d, e) && Unchanged(e, f)
    ensures Unchanged(d, f)
  {
  }

  /** Equality composes exactly when the outer lists are paired and no first match between them that is not
      reached through the middle list is a change. */
  lemma TransitiveIff(a: seq<LocalDisk>, b: seq<LocalDisk>, c: seq<LocalDisk>)
    requires ListsEqual(a, b) && ListsEqual(b, c)
    ensures ListsEqual(a, c) <==> (Paired(a, c) && forall d | Counts(d, a) :: BypassUnchanged(d, b, c))
  {
    EqualIffPairedUnchanged(a, c);
    if ListsEqual(a, c) {
      forall d | Counts(d, a)
        ensures BypassUnchanged(d, b, c)
      {
      }
    }
    if forall d | Counts(d, a) :: BypassUnchanged(d, b, c) {
      forall d | Counts(d, a) && FirstMatch(d, c).Some?
        ensures Unchanged(d, FirstMatch(d, c).value)
      {
        if Through(d, b, c) {
          assert StillThere(d, b);
          var e := FirstMatch(d, b).value;
          assert Counts(e, b) && StillThere(e, c);
          UnchangedComposes(d, e, FirstMatch(e, c).value);
        }
      }
    }
  }

  // ---------- the same for the lists in every order ----------

  /** A list equals itself in every order exactly when devices that match one another do not differ in what
      counts as a change. */
  lemma SelfEqualInEveryOrderIff(devices: seq<LocalDisk>)
    ensures EqualInEveryOrder(devices, devices) <==> MatchesUnchanged(devices, devices)
  {
    EqualInEveryOrderIff(devices, devices);
    assert forall d | Counts(d, devices) :: Same(d, d) && HasMatch(d, devices);
  }

  /** Two devices no change leads between, either way. */
  ghost predicate Alike(d: LocalDisk, e: LocalDisk) {
    && d.empty == e.empty && d.partitions.Some? == e.partitions.Some?
    && (d.cephVolumeData == "" <==> e.cephVolumeData == "")
  }

  /** Equality goes both ways, in every order, exactly when the lists are paired and matches are alike. */
  lemma SymmetricInEveryOrderIff(a: seq<LocalDisk>, b: seq<LocalDisk>)
    ensures EqualInEveryOrder(a, b) && EqualInEveryOrder(b, a) <==>
      Paired(a, b) && forall d, x | Counts(d, a) && Counts(x, b) && Same(d, x) :: Alike(d, x)
  {
    EqualInEveryOrderIff(a, b);
    EqualInEveryOrderIff(b, a);
    assert forall d, x :: Same(d, x) <==> Same(x, d);
    assert forall d, x :: Alike(d, x) <==> Unchanged(d, x) && Unchanged(x, d);
  }

  /** A device that matches both. */
  ghost predicate Linked(d: LocalDisk, devices: seq<LocalDisk>, f: LocalDisk) {
    exists e :: Counts(e, devices) && Same(d, e) && Same(e, f)
  }

  /** Being no change composes, matching does not: equality in every order composes exactly if the outer lists
      are paired, and matches between them that bypass the middle list are no change. */
  lemma TransitiveInEveryOrderIff(a: seq<LocalDisk>, b: seq<LocalDisk>, c: seq<LocalDisk>)
    requires EqualInEveryOrder(a, b) && EqualInEveryOrder(b, c)
    ensures EqualInEveryOrder(a, c) <==>
      Paired(a, c) && forall d, f | Counts(d, a) && Counts(f, c) && Same(d, f) && !Linked(d, b, f) :: Unchanged(d, f)
  {
    EqualInEveryOrderIff(a, b);
    EqualInEveryOrderIff(b, c);
    EqualInEveryOrderIff(a, c);
    forall d, f | Counts(d, a) && Counts(f, c) && Same(d, f) && Linked(d, b, f)
      ensures Unchanged(d, f)
    {
      var e :| Counts(e, b) && Same(d, e) && Same(e, f);
      assert Unchanged(d, e) && Unchanged(e, f);
    }
  }

  /** A list whose devices match only themselves equals itself, and every permutation of itself. */
  lemma EqualToItself(devices: seq<LocalDisk>)
    requires Unambiguous(devices, devices)
    ensures EqualInEveryOrder(devices, devices)
  {
    SelfEqualInEveryOrderIff(devices);
    assert forall d | Counts(d, devices) :: Same(d, d) && Unchanged(d, d);
  }

  function Disk(name: string, uuid: string, empty: bool): LocalDisk {
    LocalDisk(name, "", uuid, "", None, empty, "", "")
  }

  lemma SingleLists(d: LocalDisk, e: LocalDisk)
    requires !Ignored(d) && !Ignored(e)
    ensures ListsEqual([d], [e]) <==> Same(d, e) && Unchanged(d, e)
  {
    assert d in [d] && e in [e];
    assert FirstMatch(d, [e]) == if Same(d, e) then Some(e) else None;
    assert FirstMatch(e, [d]) == if Same(e, d) then Some(d) else None;
  }

  /** Filling a device is no change, emptying it is one. */
  lemma NotSymmetric()
    ensures ListsEqual([Disk("sda", "u", true)], [Disk("sda", "u", false)])
    ensures !ListsEqual([Disk("sda", "u", false)], [Disk("sda", "u", true)])
  {
    SingleLists(Disk("sda", "u", true), Disk("sda", "u", false));
    SingleLists(Disk("sda", "u", false), Disk("sda", "u", true));
  }

  /** Matching by uuid and then by name links devices that have nothing in common. */
  lemma NotTransitive(name1: string, name2: string, uuid1: string, uuid2: string)
    requires name1 != name2 && uuid1 != uuid2
    ensures ListsEqual([Disk(name1, uuid1, true)], [Disk(name2, uuid1, true)])
    ensures ListsEqual([Disk(name2, uuid1, true)], [Disk(name2, uuid2, true)])
    ensures !ListsEqual([Disk(name1, uuid1, true)], [Disk(name2, uuid2, true)])
  {
    SingleLists(Disk(name1, uuid1, true), Disk(name2, uuid1, true));
    SingleLists(Disk(name2, uuid1, true), Disk(name2, uuid2, true));
    SingleLists(Disk(name1, uuid1, true), Disk(name2, uuid2, true));
  }

  /** With two candidates the order of the new list decides, even for a list against itself. */
  lemma AmbiguityMatters()
    ensures var a, b := Disk("sda", "", true), Disk("sdb", "", false);
      !ListsEqual([a, b], [a, b]) && ListsEqual([a, b], [b, a])
  {
    var a, b := Disk("sda", "", true), Disk("sdb", "", false);
    assert a in [a, b] && b in [a, b];
    assert FirstMatch(b, [a, b]) == Some(a) && FirstMatch(a, [a, b]) == Some(a);
    assert FirstMatch(b, [b, a]) == Some(b) && FirstMatch(a, [b, a]) == Some(b);
    assert !StillThere(b, [a, b]);
  }
}
