/** GetDevicePartitions: which lsblk rows are partitions, and what space they leave (util/sys/device.go). */
module DevicePartitions {
  import opened MachineInts
  import opened Wrappers
  import opened Strings
  import opened LsblkPairs

  datatype Partition = Partition(name: string, size: int, partLabel: string, filesystem: string)

  /** The two external commands: `udevadm info` by device name, and `lsblk` for the device itself. */
  type Udev = string -> Result<string>

  const PART_TYPE := "part"
  const LVM_TYPE := "lvm"
  const CEPH_LV_PREFIX := "ceph--"

  /** Indexing a Go map gives "" for a missing key. */
  function Get(m: Props, key: string): string {
    if key in m then m[key] else ""
  }

  // ---------- strconv.ParseUint(s, 10, 64) ----------

  function ParseUint(s: string): (r: Result<int>)
    ensures r.Ok? <==> s != "" && AllDigits(s) && Decimal(s) < TWO_64
    ensures r.Ok? ==> r.value == Decimal(s) && IsUint64(r.value)
  {
    if s != "" && (forall k | 0 <= k < |s| :: '0' <= s[k] <= '9') && Decimal(s) < TWO_64 then Ok(Decimal(s)) else Err
  }

  // ---------- parseUdevInfo ----------

  function AddLine(m: Props, line: string): Props {
    var pairs := Split(line, "=");
    if |pairs| > 1 then m[pairs[0] := pairs[1]] else m
  }

  function AddLines(m: Props, lines: seq<string>): Props {
    if lines == [] then m else AddLine(AddLines(m, lines[..|lines|-1]), lines[|lines|-1])
  }

  function UdevInfo(output: string): Props {
    AddLines(map[], Split(output, "\n"))
  }

  method ParseUdevInfo(output: string) returns (result: Props)
    ensures result == UdevInfo(output)
  {
    var lines := Split(output, "\n");
    result := map[];
    for k := 0 to |lines|
      invariant result == AddLines(map[], lines[..k])
    {
      assert lines[..k+1][..k] == lines[..k];
      var pairs := Split(lines[k], "=");
      if |pairs| > 1 {
        result := result[pairs[0] := pairs[1]];
      }
    }
    assert lines[..|lines|] == lines;
  }

  // ---------- what parseUdevInfo gives back ----------

  /** `KEY=VALUE`, one line a pair: the form udevadm prints. */
  function UdevLine(p: Pair): string {
    p.key + "=" + p.value
  }

  function UdevLines(pairs: seq<Pair>): (lines: seq<string>)
    ensures |lines| == |pairs|
    ensures forall k | 0 <= k < |pairs| :: lines[k] == UdevLine(pairs[k])
  {
    seq(|pairs|, k requires 0 <= k < |pairs| => UdevLine(pairs[k]))
  }

  function PrintUdev(pairs: seq<Pair>): string {
    Join(UdevLines(pairs), "\n")
  }

  /** A value up to its first `=`. */
  function Cut(value: string): (r: string)
    ensures r <= value && '=' !in r && (r == value || value[|r|] == '=')
  {
    if value == "" || value[0] == '=' then "" else [value[0]] + Cut(value[1..])
  }

  function CutPairs(pairs: seq<Pair>): (cut: seq<Pair>)
    ensures |cut| == |pairs| && forall k | 0 <= k < |pairs| :: cut[k] == Pair(pairs[k].key, Cut(pairs[k].value))
  {
    seq(|pairs|, k requires 0 <= k < |pairs| => Pair(pairs[k].key, Cut(pairs[k].value)))
  }

  /** Each pair stands on a line of its own, and its key ends at the first `=` of the line. */
  ghost predicate Lined(p: Pair) {
    '\n' !in p.key && '\n' !in p.value && '=' !in p.key
  }

  /** There is one way to cut a text at the first occurrence of a character. */
  lemma CutsAgree(value: string, a: string, b: string, c: char)
    requires a <= value && c !in a && (a == value || value[|a|] == c)
    requires b <= value && c !in b && (b == value || value[|b|] == c)
    ensures a == b
  {
    assert a == value[..|a|] && b == value[..|b|];
    assert |a| < |b| ==> b[|a|] == value[|a|];
    assert |b| < |a| ==> a[|b|] == value[|b|];
  }

  lemma CutIsFirstField(value: string)
    ensures Split(value, "=")[0] == Cut(value)
  {
    var i := IndexFrom(value, "=", 0);
    SplitPartsClean(value, '=');
    assert i != -1 ==> value[i..i+1][0] == '=';
    CutsAgree(value, Split(value, "=")[0], Cut(value), '=');
  }

  lemma LineOfPair(m: Props, p: Pair)
    requires '=' !in p.key
    ensures AddLine(m, UdevLine(p)) == m[p.key := Cut(p.value)]
  {
    var line := p.key + "=" + p.value;
    forall j | 0 <= j < |p.key|
      ensures !At(line, "=", j)
    {
      assert line[j] == p.key[j] && p.key[j] in p.key;
      NotAtChar(line, '=', j);
    }
    SplitHead(p.key, p.value, "=");
    CutIsFirstField(p.value);
  }

  lemma {:induction false} LinesOfPairs(pairs: seq<Pair>)
    requires forall k | 0 <= k < |pairs| :: '=' !in pairs[k].key
    ensures AddLines(map[], UdevLines(pairs)) == MapOf(CutPairs(pairs))
  {
    if pairs != [] {
      var init, last := pairs[..|pairs|-1], pairs[|pairs|-1];
      var lines, cut := UdevLines(pairs), CutPairs(pairs);
      assert lines[..|lines|-1] == UdevLines(init) && lines[|lines|-1] == UdevLine(last);
      assert cut[..|cut|-1] == CutPairs(init);
      LinesOfPairs(init);
      LineOfPair(AddLines(map[], UdevLines(init)), last);
    }
  }

  /** Every printed pair is read back, its value cut at the first `=`; of equal keys the last one wins. */
  lemma UdevInfoOfPrint(pairs: seq<Pair>)
    requires forall k | 0 <= k < |pairs| :: Lined(pairs[k])
    ensures UdevInfo(PrintUdev(pairs)) == MapOf(CutPairs(pairs))
  {
    var lines := UdevLines(pairs);
    forall k | 0 <= k < |lines|
      ensures '\n' !in lines[k]
    {
      assert lines[k] == UdevLine(pairs[k]);
    }
    if pairs == [] {
      SplitNone("", "\n");
      SplitNone("", "=");
      assert [""][..0] == [];
    } else {
      SplitJoin(lines, '\n');
      LinesOfPairs(pairs);
    }
  }

  /** A key or value that comes back as it was printed. */
  ghost predicate UdevClean(p: Pair) {
    Lined(p) && '=' !in p.value
  }

  /** Whatever the text, no key or value that was read holds an `=` or a newline. */
  lemma {:induction false} ReadIsClean(lines: seq<string>)
    requires forall k | 0 <= k < |lines| :: '\n' !in lines[k]
    ensures forall key | key in AddLines(map[], lines) :: UdevClean(Pair(key, AddLines(map[], lines)[key]))
  {
    if lines != [] {
      ReadIsClean(lines[..|lines|-1]);
      SplitPartsClean(lines[|lines|-1], '=');
    }
  }

  /** Properties printed by udevadm are read back unchanged exactly when none of them holds an `=` or a newline. */
  lemma UdevRoundTripIff(pairs: seq<Pair>)
    requires DistinctKeys(pairs)
    ensures UdevInfo(PrintUdev(pairs)) == MapOf(pairs) <==> forall k | 0 <= k < |pairs| :: UdevClean(pairs[k])
  {
    if forall k | 0 <= k < |pairs| :: UdevClean(pairs[k]) {
      UdevInfoOfPrint(pairs);
      forall k | 0 <= k < |pairs|
        ensures CutPairs(pairs)[k] == pairs[k]
      {
        assert UdevClean(pairs[k]);
      }
      assert CutPairs(pairs) == pairs;
    } else if UdevInfo(PrintUdev(pairs)) == MapOf(pairs) {
      SplitPartsClean(PrintUdev(pairs), '\n');
      ReadIsClean(Split(PrintUdev(pairs), "\n"));
      forall k | 0 <= k < |pairs|
        ensures UdevClean(pairs[k])
      {
        MapOfDistinct(pairs, k);
        assert UdevClean(Pair(pairs[k].key, MapOf(pairs)[pairs[k].key]));
      }
    }
  }

  // ---------- what each row of lsblk output is ----------

  predicate IsDevice(row: Props, device: string) {
    Get(row, "NAME") == device
  }

  predicate IsPartition(row: Props, device: string) {
    !IsDevice(row, device) && Get(row, "PKNAME") == device && Get(row, "TYPE") == PART_TYPE
  }

  predicate IsCephVolume(row: Props, device: string) {
    && !IsDevice(row, device) && !IsPartition(row, device)
    && HasPrefix(Get(row, "NAME"), CEPH_LV_PREFIX) && Get(row, "TYPE") == LVM_TYPE
  }

  function Size(row: Props): Result<int> {
    ParseUint(Get(row, "SIZE"))
  }

  /** A row that stops the whole call. */
  predicate Fails(row: Props, device: string, udev: Udev) {
    || (IsDevice(row, device) && Size(row).Err?)
    || (IsPartition(row, device) && (Size(row).Err? || udev(Get(row, "NAME")).Err?))
  }

  function Described(row: Props, size: int, info: Props): Partition {
    Partition(
      Get(row, "NAME"),
      size,
      if "ID_PART_ENTRY_NAME" in info then info["ID_PART_ENTRY_NAME"] else Get(info, "PARTNAME"),
      Get(info, "ID_FS_TYPE"))
  }

  /** What a usable row adds to the partitions: at most one. */
  function FoundIn(row: Props, device: string, udev: Udev): (found: seq<Partition>)
    requires !Fails(row, device, udev)
    ensures |found| <= 1 && (found != [] ==> IsUint64(found[0].size))
  {
    if IsPartition(row, device) then [Described(row, Size(row).value, UdevInfo(udev(Get(row, "NAME")).value))]
    else if IsCephVolume(row, device) then [Partition(Get(row, "NAME"), 0, "", "")]
    else []
  }

  // ---------- rows, from text to partition ----------

  /** A text that lsblk's pairs can carry. */
  ghost predicate Plain(s: string) {
    ' ' !in s && '=' !in s && QUOTE !in s
  }

  function LsblkFields(name: string, size: nat, kind: string, parent: string): seq<Pair> {
    [Pair("NAME", name), Pair("SIZE", Itoa(size)), Pair("TYPE", kind), Pair("PKNAME", parent)]
  }

  /** The row that lsblk prints for a device: its name, size, type and parent. */
  function LsblkLine(name: string, size: nat, kind: string, parent: string): string {
    Print(LsblkFields(name, size, kind, parent))
  }

  lemma DigitsArePlain(n: nat)
    ensures Plain(Itoa(n))
  {
    DecimalOfItoa(n);
    assert forall c | c in Itoa(n) :: '0' <= c <= '9';
  }

  lemma PairIsClean(p: Pair)
    requires Plain(p.key) && Plain(p.value)
    ensures Clean(p)
  {
  }

  lemma {:induction false} FieldsAreClean(name: string, size: nat, kind: string, parent: string)
    requires Plain(name) && Plain(kind) && Plain(parent)
    ensures var pairs := LsblkFields(name, size, kind, parent);
      DistinctKeys(pairs) && forall k | 0 <= k < |pairs| :: Clean(pairs[k])
  {
    FieldsDiffer();
    DigitsArePlain(size);
    PairIsClean(Pair("NAME", name));
    PairIsClean(Pair("SIZE", Itoa(size)));
    PairIsClean(Pair("TYPE", kind));
    PairIsClean(Pair("PKNAME", parent));
  }

  lemma {:induction false} PairsParse(pairs: seq<Pair>, k: nat)
    requires DistinctKeys(pairs) && k < |pairs| && forall j | 0 <= j < |pairs| :: Clean(pairs[j])
    ensures Get(ParsePairs(Print(pairs)), pairs[k].key) == pairs[k].value
  {
    ParseOfPrint(pairs);
    MapOfDistinct(pairs, k);
  }

  lemma {:induction false} LineParses(name: string, size: nat, kind: string, parent: string)
    requires Plain(name) && Plain(kind) && Plain(parent) && size < TWO_64
    ensures var row := ParsePairs(LsblkLine(name, size, kind, parent));
      && Get(row, "NAME") == name && Size(row) == Ok(size) && Get(row, "TYPE") == kind && Get(row, "PKNAME") == parent
  {
    var pairs := LsblkFields(name, size, kind, parent);
    FieldsAreClean(name, size, kind, parent);
    forall k | 0 <= k < |pairs|
      ensures Get(ParsePairs(Print(pairs)), pairs[k].key) == pairs[k].value
    {
      PairsParse(pairs, k);
    }
    assert pairs[0].key == "NAME" && pairs[1].key == "SIZE" && pairs[2].key == "TYPE" && pairs[3].key == "PKNAME";
    DecimalOfItoa(size);
  }

  lemma FieldsDiffer()
    ensures "NAME" != "SIZE" && "NAME" != "TYPE" && "NAME" != "PKNAME"
    ensures "SIZE" != "TYPE" && "SIZE" != "PKNAME" && "TYPE" != "PKNAME"
    ensures Plain("NAME") && Plain("SIZE") && Plain("TYPE") && Plain("PKNAME")
  {
    assert "NAME"[0] == 'N' && "SIZE"[0] == 'S' && "TYPE"[0] == 'T' && "PKNAME"[0] == 'P';
  }

  /** What one row comes to. The device's own row gives its size; a child of type "part" is a partition, with
      udev's entry name, or else partition name, and filesystem; a "ceph--" volume of type "lvm" is listed
      without size; every other row is passed over. Only a partition udev does not know fails. */
  lemma LineMeans(device: string, name: string, size: nat, kind: string, parent: string, udev: Udev)
    requires Plain(name) && Plain(kind) && Plain(parent) && size < TWO_64
    ensures var row := ParsePairs(LsblkLine(name, size, kind, parent));
      var partition, known := name != device && parent == device && kind == "part", udev(name);
      && (Fails(row, device, udev) <==> partition && known.Err?)
      && (name == device ==> FoundIn(row, device, udev) == [] && DeviceSize([row], device) == size)
      && (partition && known.Ok? ==>
            var info := UdevInfo(known.value);
            var entry := if "ID_PART_ENTRY_NAME" in info then info["ID_PART_ENTRY_NAME"]
                         else if "PARTNAME" in info then info["PARTNAME"] else "";
            FoundIn(row, device, udev) ==
              [Partition(name, size, entry, if "ID_FS_TYPE" in info then info["ID_FS_TYPE"] else "")])
      && (name != device && !partition ==>
            DeviceSize([row], device) == 0
            && FoundIn(row, device, udev) ==
                 if "ceph--" <= name && kind == "lvm" then [Partition(name, 0, "", "")] else [])
  {
    LineParses(name, size, kind, parent);
    assert [ParsePairs(LsblkLine(name, size, kind, parent))][..0] == [];
  }

  ghost predicate Usable(rows: seq<Props>, device: string, udev: Udev) {
    forall k | 0 <= k < |rows| :: !Fails(rows[k], device, udev)
  }

  /** The partitions among the rows, in row order. */
  ghost function Found(rows: seq<Props>, device: string, udev: Udev): seq<Partition>
    requires Usable(rows, device, udev)
  {
    if rows == [] then [] else Found(rows[..|rows|-1], device, udev) + FoundIn(rows[|rows|-1], device, udev)
  }

  /** The size of the last row naming the device itself, 0 without one. */
  function DeviceSize(rows: seq<Props>, device: string): int {
    if rows == [] then 0
    else if IsDevice(rows[|rows|-1], device) && Size(rows[|rows|-1]).Ok? then Size(rows[|rows|-1]).value
    else DeviceSize(rows[..|rows|-1], device)
  }

  lemma OneMoreRow(rows: seq<Props>, row: Props, device: string, udev: Udev)
    requires Usable(rows, device, udev) && !Fails(row, device, udev)
    ensures Usable(rows + [row], device, udev)
    ensures Found(rows + [row], device, udev) == Found(rows, device, udev) + FoundIn(row, device, udev)
  {
    assert (rows + [row])[..|rows|] == rows;
  }

  /** Partitions are listed row after row. */
  lemma {:induction false} FoundConcat(a: seq<Props>, b: seq<Props>, device: string, udev: Udev)
    requires Usable(a, device, udev) && Usable(b, device, udev)
    ensures Usable(a + b, device, udev)
    ensures Found(a + b, device, udev) == Found(a, device, udev) + Found(b, device, udev)
  {
    if b == [] {
      assert a + b == a;
    } else {
      var init, last := b[..|b|-1], b[|b|-1];
      assert a + b == (a + init) + [last] && b == init + [last];
      FoundConcat(a, init, device, udev);
      OneMoreRow(a + init, last, device, udev);
      OneMoreRow(init, last, device, udev);
    }
  }

  /** A row that says how large the device is. */
  predicate TellsSize(row: Props, device: string) {
    Get(row, "NAME") == device && Size(row).Ok?
  }

  lemma SizeOfLast(rows: seq<Props>, row: Props, device: string)
    ensures DeviceSize(rows + [row], device) ==
      if TellsSize(row, device) then Size(row).value else DeviceSize(rows, device)
  {
    assert (rows + [row])[..|rows|] == rows;
  }

  /** The last row that tells the device's size counts. */
  lemma {:induction false} LastSizeCounts(rows: seq<Props>, device: string, k: nat)
    requires k < |rows| && TellsSize(rows[k], device)
    requires forall j | k < j < |rows| :: !TellsSize(rows[j], device)
    ensures DeviceSize(rows, device) == Size(rows[k]).value
    decreases |rows|
  {
    var init, last := rows[..|rows|-1], rows[|rows|-1];
    assert rows == init + [last];
    SizeOfLast(init, last, device);
    if k < |init| {
      LastSizeCounts(init, device, k);
    }
  }

  lemma {:induction false} NoSizeTold(rows: seq<Props>, device: string)
    requires forall j | 0 <= j < |rows| :: !TellsSize(rows[j], device)
    ensures DeviceSize(rows, device) == 0
  {
    if rows != [] {
      NoSizeTold(rows[..|rows|-1], device);
    }
  }

  function Rows(output: string): (rows: seq<Props>)
    ensures |rows| == |Split(output, "\n")|
    ensures forall k | 0 <= k < |rows| :: rows[k] == ParsePairs(Split(output, "\n")[k])
  {
    var lines := Split(output, "\n");
    seq(|lines|, k requires 0 <= k < |lines| => ParsePairs(lines[k]))
  }

  /** The sizes of the partitions, added without wrap-around. */
  ghost function TotalSize(partitions: seq<Partition>): int {
    if partitions == [] then 0 else TotalSize(partitions[..|partitions|-1]) + partitions[|partitions|-1].size
  }

  /** The uint64 running total of a list of partitions. */
  ghost predicate Tallied(total: int, partitions: seq<Partition>) {
    TotalSize(partitions) >= 0 && total == TotalSize(partitions) % TWO_64
  }

  /** Adding a row's partition to the list adds its size to the running total. */
  lemma TallyStep(total: int, a: seq<Partition>, b: seq<Partition>)
    requires Tallied(total, a) && |b| <= 1 && (b != [] ==> IsUint64(b[0].size))
    ensures Tallied(WrapUint64(total + if b == [] then 0 else b[0].size), a + b)
  {
    if b == [] {
      assert a + b == a;
    } else {
      assert (a + b)[..|a|] == a;
      assert TotalSize(a + b) == TotalSize(a) + b[0].size;
    }
  }

  /** The partition branch of the loop: size first, then the udev properties. */
  method DescribePartition(props: Props, device: string, udev: Udev) returns (p: Result<Partition>)
    requires IsPartition(props, device)
    ensures p.Err? <==> Fails(props, device, udev)
    ensures p.Ok? ==> FoundIn(props, device, udev) == [p.value]
  {
    var name := Get(props, "NAME");
    var size := ParseUint(Get(props, "SIZE"));
    if size.Err? {
      return Err;
    }
    var output := udev(name);
    if output.Err? {
      return Err;
    }
    var info := ParseUdevInfo(output.value);
    var part := Partition(name, size.value, "", "");
    if "PARTNAME" in info {
      part := part.(partLabel := info["PARTNAME"]);
    }
    if "ID_PART_ENTRY_NAME" in info {
      part := part.(partLabel := info["ID_PART_ENTRY_NAME"]);
    }
    if "ID_FS_TYPE" in info {
      part := part.(filesystem := info["ID_FS_TYPE"]);
    }
    return Ok(part);
  }

  /** One row of the loop: what it adds, and the device size it may set. */
  method ReadRow(row: Props, device: string, udev: Udev, size: int)
    returns (ok: bool, size': int, found: seq<Partition>)
    requires IsUint64(size)
    ensures ok <==> !Fails(row, device, udev)
    ensures ok ==> found == FoundIn(row, device, udev) && IsUint64(size')
    ensures ok ==> size' == if IsDevice(row, device) then Size(row).value else size
  {
    ok, size', found := true, size, [];
    var name := Get(row, "NAME");
    if name == device {
      var parsed := ParseUint(Get(row, "SIZE"));
      if parsed.Err? {
        ok := false;
        return;
      }
      size' := parsed.value;
    } else if Get(row, "PKNAME") == device && Get(row, "TYPE") == PART_TYPE {
      var p := DescribePartition(row, device, udev);
      if p.Err? {
        ok := false;
        return;
      }
      found := [p.value];
    } else if HasPrefix(name, CEPH_LV_PREFIX) && Get(row, "TYPE") == LVM_TYPE {
      found := [Partition(name, 0, "", "")];
    }
  }

  /** Space is conserved exactly when the partitions fit the device, and modulo 2^64 for any device of known size. */
  ghost predicate Conserved(total: int, size: int, unused: int) {
    && (total + unused == size <==> total <= size)
    && (if size > 0 then (total + unused - size) % TWO_64 == 0 else unused == 0)
  }

  lemma UnusedSpace(total: int, size: int, unused: int)
    requires total >= 0 && IsUint64(size)
    requires unused == if size > 0 then WrapUint64(size - total % TWO_64) else 0
    ensures Conserved(total, size, unused)
  {
  }

  /** The first i rows are usable, and these are the device size, the total and the partitions they give. */
  ghost predicate Accounted(
      rows: seq<Props>, i: nat, device: string, udev: Udev, size: int, total: int, partitions: seq<Partition>)
    requires i <= |rows|
  {
    && Usable(rows[..i], device, udev)
    && IsUint64(size) && size == DeviceSize(rows[..i], device)
    && partitions == Found(rows[..i], device, udev)
    && IsUint64(total) && Tallied(total, partitions)
  }

  lemma FirstRows(rows: seq<Props>, i: nat, device: string, udev: Udev)
    requires i < |rows| && Usable(rows[..i], device, udev)
    ensures Usable(rows[..i+1], device, udev) <==> !Fails(rows[i], device, udev)
    ensures Usable(rows, device, udev) ==> !Fails(rows[i], device, udev)
    ensures !Fails(rows[i], device, udev) ==>
      Found(rows[..i+1], device, udev) == Found(rows[..i], device, udev) + FoundIn(rows[i], device, udev)
    ensures !Fails(rows[i], device, udev) ==>
      DeviceSize(rows[..i+1], device) ==
        if IsDevice(rows[i], device) then Size(rows[i]).value else DeviceSize(rows[..i], device)
  {
    assert rows[..i+1][..i] == rows[..i];
    assert rows[..i+1][i] == rows[i];
  }

  lemma AccountRow(
      rows: seq<Props>, i: nat, device: string, udev: Udev, size: int, total: int, partitions: seq<Partition>,
      size': int, found: seq<Partition>)
    requires i < |rows| && Accounted(rows, i, device, udev, size, total, partitions)
    requires !Fails(rows[i], device, udev) && found == FoundIn(rows[i], device, udev)
    requires IsUint64(size') && size' == if IsDevice(rows[i], device) then Size(rows[i]).value else size
    ensures var total' := WrapUint64(total + if found == [] then 0 else found[0].size);
      Accounted(rows, i + 1, device, udev, size', total', partitions + found)
  {
    FirstRows(rows, i, device, udev);
    TallyStep(total, partitions, found);
  }

  /** The loop over the lines of lsblk's output. */
  method AddRows(partInfo: seq<string>, ghost rows: seq<Props>, device: string, udev: Udev)
    returns (ok: bool, deviceSize: int, totalPartitionSize: int, partitions: seq<Partition>)
    requires |rows| == |partInfo| && forall k | 0 <= k < |rows| :: rows[k] == ParsePairs(partInfo[k])
    ensures ok <==> Usable(rows, device, udev)
    ensures ok ==> partitions == Found(rows, device, udev)
    ensures ok ==> deviceSize == DeviceSize(rows, device) && IsUint64(deviceSize)
    ensures ok ==> IsUint64(totalPartitionSize) && Tallied(totalPartitionSize, partitions)
  {
    ok, deviceSize, totalPartitionSize, partitions := true, 0, 0, [];
    for i := 0 to |partInfo|
      invariant ok && Accounted(rows, i, device, udev, deviceSize, totalPartitionSize, partitions)
    {
      var props := ParseKeyValuePairString(partInfo[i]);
      var size, found;
      ok, size, found := ReadRow(props, device, udev, deviceSize);
      if !ok {
        FirstRows(rows, i, device, udev);
        return;
      }
      AccountRow(rows, i, device, udev, deviceSize, totalPartitionSize, partitions, size, found);
      deviceSize := size;
      totalPartitionSize := WrapUint64(totalPartitionSize + if found == [] then 0 else found[0].size);
      partitions := partitions + found;
    }
    assert rows[..|partInfo|] == rows;
  }

  /** What the partitions leave of the device. */
  method Unused(deviceSize: int, totalPartitionSize: int, ghost partitions: seq<Partition>) returns (unusedSpace: int)
    requires IsUint64(deviceSize) && IsUint64(totalPartitionSize) && Tallied(totalPartitionSize, partitions)
    ensures IsUint64(unusedSpace) && Conserved(TotalSize(partitions), deviceSize, unusedSpace)
  {
    unusedSpace := 0;
    if deviceSize > 0 {
      unusedSpace := WrapUint64(deviceSize - totalPartitionSize);
    }
    UnusedSpace(TotalSize(partitions), deviceSize, unusedSpace);
  }

  /** Fails exactly when lsblk failed or some row cannot be used; otherwise returns the partitions in
      row order. Their sizes and the unused space add up to the device exactly when the partitions
      total no more than the device, whatever wrap-around happened on the way. */
  method GetDevicePartitions(device: string, lsblk: Result<string>, udev: Udev)
    returns (r: Result<(seq<Partition>, int)>)
    ensures r.Ok? <==> lsblk.Ok? && Usable(Rows(lsblk.value), device, udev)
    ensures r.Ok? ==> r.value.0 == Found(Rows(lsblk.value), device, udev) && IsUint64(r.value.1)
    ensures r.Ok? ==> Conserved(TotalSize(r.value.0), DeviceSize(Rows(lsblk.value), device), r.value.1)
  {
    if lsblk.Err? {
      return Err;
    }
    var partInfo := Split(lsblk.value, "\n");
    var ok, deviceSize, totalPartitionSize, partitions := AddRows(partInfo, Rows(lsblk.value), device, udev);
    if !ok {
      return Err;
    }
    var unusedSpace := Unused(deviceSize, totalPartitionSize, partitions);
    return Ok((partitions, unusedSpace));
  }

}
