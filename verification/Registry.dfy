/** diskm/disk_manager.c: the registry of disks and their partitions, under add, safe-remove, remove and
    wakeup events with arbitrary outcomes of probing and mounting. */
module Registry {

  const DISK_INIT: int := 0
  const DISK_MOUNTED: int := 1
  const DISK_SFREMOVE: int := 2
  const DISK_WAKEUP: int := 3
  const DISK_UDEV_ADD: int := 4
  const DISK_UDEV_REMOVE: int := 5
  const ANY_MAJOR: int := 0xFFFF
  const MMCBLK_MAX_PART: int := 8

  const SUCCESS: int := 0
  const FAILURE: int := 1
  const NOTHING: int := 2

  /** disk_partinfo_t: its name, whether it is marked mounted, whether its file system was recognised. */
  datatype Part = Part(name: string, mounted: bool, known: bool)

  /** disk_maininfo_t. */
  datatype Disk = Disk(name: string, major: int, status: int, partnum: nat, isgpt: bool, plugcount: nat,
                       parts: seq<Part>)

  datatype Reg = Reg(disks: seq<Disk>, plugs: nat, inited: bool)

  /** An entry of /proc/devices: a block major of the sd or the mmc driver. */
  datatype Major = Major(major: int, mmc: bool)

  /** A line of /proc/partitions, with what probing the disk's partition table says; for a partition
      whose disk is not registered yet, whether /proc/partitions lists that disk, and its own table. */
  datatype Line = Line(major: int, minor: int, size: nat, name: string, gpt: bool, ownerListed: bool, ownerGpt: bool)

  /** What the system says of one partition: recognised by a prober, an EFI partition, found in
      /proc/mounts, and whether mounting it works. */
  datatype Trial = Trial(known: bool, efi: bool, already: bool, mounts: bool)

  /** The answers for the partition at a place of the registry. */
  type Oracle = (nat, nat) -> Trial

  // ----- Names

  predicate IsDigit(c: char) {
    '0' <= c <= '9'
  }

  function StripDigits(name: string): (r: string)
    ensures r <= name
  {
    if name != "" && IsDigit(name[|name| - 1]) then StripDigits(name[..|name| - 1]) else name
  }

  function NonDigits(name: string): (r: string)
    ensures r <= name
  {
    if name == "" || IsDigit(name[0]) then "" else [name[0]] + NonDigits(name[1..])
  }

  function Atoi(s: string, acc: nat): nat
    decreases |s|
  {
    if s == "" || !IsDigit(s[0]) then acc else Atoi(s[1..], 10 * acc + (s[0] as int - '0' as int))
  }

  function Decimal(n: nat): string {
    if n < 10 then ['0' + n as char] else Decimal(n / 10) + ['0' + (n % 10) as char]
  }

  datatype Role = Main | Partition(owner: string) | Alien

  function FindMajor(majors: seq<Major>, major: int): (i: nat)
    ensures i <= |majors| && (i < |majors| ==> majors[i].major == major)
  {
    if majors == [] || majors[0].major == major then 0 else 1 + FindMajor(majors[1..], major)
  }

  /** Is a device a disk or a partition, and of which disk? */
  function RoleOf(majors: seq<Major>, l: Line): Role {
    var m := FindMajor(majors, l.major);
    if m == |majors| then Alien
    else if majors[m].mmc && l.major != 8 then
      if l.minor % MMCBLK_MAX_PART == 0 then Main
      else
        var head := NonDigits(l.name);
        Partition(head + Decimal(Atoi(l.name[|head|..], 0)))
    else if !majors[m].mmc && l.major == 8 then
      if l.name == "" || !IsDigit(l.name[|l.name| - 1]) then Main else Partition(StripDigits(l.name))
    else Alien
  }

  // ----- Searching

  /** disk_search_partition_list for a disk. */
  function FindDisk(ds: seq<Disk>, name: string): (i: nat)
    ensures i <= |ds| && (i < |ds| ==> ds[i].name == name)
    ensures forall j :: 0 <= j < i ==> ds[j].name != name
  {
    if ds == [] || ds[0].name == name then 0 else 1 + FindDisk(ds[1..], name)
  }

  /** The first disk whose name `name` starts with. */
  function FindOwner(ds: seq<Disk>, name: string): (i: nat)
    ensures i <= |ds| && (i < |ds| ==> ds[i].name <= name)
    ensures forall j :: 0 <= j < i ==> !(ds[j].name <= name)
  {
    if ds == [] || ds[0].name <= name then 0 else 1 + FindOwner(ds[1..], name)
  }

  predicate HasPart(d: Disk, name: string) {
    exists i :: 0 <= i < |d.parts| && d.parts[i].name == name
  }

  /** disk_search_partition_list for a partition: it looks at one disk only, the first whose name is a
      prefix. */
  predicate Listed(ds: seq<Disk>, name: string) {
    var i := FindOwner(ds, name);
    i < |ds| && HasPart(ds[i], name)
  }

  // ----- disk_insert_partition_list

  function NewDisk(name: string, major: int, gpt: bool, plugcount: nat): Disk {
    Disk(name, major, DISK_INIT, 0, gpt, plugcount, [])
  }

  function WithPart(d: Disk, p: Part): Disk {
    d.(parts := d.parts + [p], partnum := d.partnum + 1)
  }

  function Insert(r: Reg, majors: seq<Major>, l: Line): Reg {
    match RoleOf(majors, l)
    case Alien => r
    case Main =>
      if FindDisk(r.disks, l.name) < |r.disks| then r
      else r.(disks := r.disks + [NewDisk(l.name, l.major, l.gpt, r.plugs)], plugs := r.plugs + 1)
    case Partition(owner) =>
      var k := FindDisk(r.disks, owner);
      if k == |r.disks| && (r.inited || !l.ownerListed) then r
      else
        var ds := if k < |r.disks| then r.disks else r.disks + [NewDisk(owner, l.major, l.ownerGpt, 0)];
        if Listed(ds, l.name) then r.(disks := ds)
        else r.(disks := ds[k := WithPart(ds[k], Part(l.name, false, false))])
  }

  // ----- The three stages of disk_mount_process

  /** spedev: no device in particular, or one by name. */
  datatype Dev = Any | Only(name: string)

  predicate Passes(dev: Dev, name: string) {
    dev.Any? || dev.name <= name
  }

  /** disk_mnt1_loop_partition. */
  function Scan(r: Reg, majors: seq<Major>, dev: Dev, lines: seq<Line>): Reg
    decreases |lines|
  {
    if lines == [] then r
    else
      var l := lines[0];
      var skip := l.size == 1 || !Passes(dev, l.name);
      Scan(if skip then r else Insert(r, majors, l), majors, dev, lines[1..])
  }

  /** disk_mnt2_confirm_partition_info on the disk at `i`: a disk without partitions becomes its own. */
  function Confirm(d: Disk, i: nat, o: Oracle): Disk {
    if d.partnum == 0 then d.(parts := d.parts + [Part(d.name, false, o(i, 0).known)], partnum := 1)
    else d.(parts := seq(|d.parts|, j requires 0 <= j < |d.parts| => d.parts[j].(known := o(i, j).known)))
  }

  /** disk_mnt3_automount_partition on one partition. */
  function MountPart(p: Part, isgpt: bool, t: Trial): Part {
    if isgpt && t.efi then p
    else p.(mounted := t.already || (p.known && t.mounts))
  }

  function Mount(d: Disk, i: nat, o: Oracle): Disk {
    d.(parts := seq(|d.parts|, j requires 0 <= j < |d.parts| => MountPart(d.parts[j], d.isgpt, o(i, j))),
       status := DISK_MOUNTED)
  }

  function MapFrom(ds: seq<Disk>, i: nat, f: (Disk, nat) -> Disk): (r: seq<Disk>)
    requires i <= |ds|
    ensures |r| == |ds| && r[..i] == ds[..i]
    ensures forall j :: i <= j < |ds| ==> r[j] == f(ds[j], j)
    decreases |ds| - i
  {
    if i == |ds| then ds else MapFrom(ds[i := f(ds[i], i)], i + 1, f)
  }

  datatype Done = Done(r: Reg, code: int)

  /** disk_mount_process. `lines` is None if /proc/partitions cannot be opened. */
  datatype Lines = None | Some(lines: seq<Line>)

  function MountProcess(r: Reg, majors: seq<Major>, dev: Dev, lines: Lines, o: Oracle): Done {
    if lines.None? then Done(r, FAILURE)
    else
      var s := Scan(r, majors, dev, lines.lines);
      if dev.Any? then
        var ds := MapFrom(s.disks, 0, (d: Disk, i: nat) => Confirm(d, i, o));
        Done(s.(disks := MapFrom(ds, 0, (d: Disk, i: nat) => Mount(d, i, o))), NOTHING)
      else
        var k := FindDisk(s.disks, dev.name);
        if k == |s.disks| then Done(s, NOTHING)
        else Done(s.(disks := s.disks[k := Mount(Confirm(s.disks[k], k, o), k, o)]), SUCCESS)
  }

  // ----- The other events

  datatype Woken = Woken(parts: seq<Part>, early: bool)

  /** The partition loop of udev_action_func_wakeup, from partition `j` on; it ends early at a partition
      that is mounted already. */
  function WakeFrom(parts: seq<Part>, j: nat, i: nat, o: Oracle): (w: Woken)
    requires j <= |parts|
    ensures |w.parts| == |parts| && forall k :: 0 <= k < |parts| ==> w.parts[k].name == parts[k].name
    decreases |parts| - j
  {
    if j == |parts| then Woken(parts, false)
    else if o(i, j).already then Woken(parts, true)
    else WakeFrom(parts[j := parts[j].(mounted := o(i, j).mounts)], j + 1, i, o)
  }

  /** The first disk an event is for. */
  function FindTarget(ds: seq<Disk>, dev: string, major: int): (i: nat)
    ensures i <= |ds| && (i < |ds| ==> ds[i].name == dev && (major == ANY_MAJOR || ds[i].major == major))
  {
    if ds == [] || (ds[0].name == dev && (major == ANY_MAJOR || ds[0].major == major)) then 0
    else 1 + FindTarget(ds[1..], dev, major)
  }

  function Wakeup(r: Reg, dev: string, major: int, o: Oracle): Done {
    var k := FindTarget(r.disks, dev, major);
    if k == |r.disks| || r.disks[k].status != DISK_SFREMOVE then Done(r, NOTHING)
    else
      var w := WakeFrom(r.disks[k].parts, 0, k, o);
      Done(r.(disks := r.disks[k := r.disks[k].(parts := w.parts, status := DISK_MOUNTED)]),
           if w.early then NOTHING else SUCCESS)
  }

  function Unmounted(parts: seq<Part>): seq<Part> {
    seq(|parts|, j requires 0 <= j < |parts| => parts[j].(mounted := false))
  }

  /** udev_action_func_remove: safe removal, removal, or an action it has no update for. */
  function Remove(r: Reg, dev: string, major: int, action: int): Done {
    var k := FindDisk(r.disks, dev);
    if k == |r.disks| || major != ANY_MAJOR then Done(r, NOTHING)
    else if r.disks[k].status == action then Done(r, SUCCESS)
    else if action == DISK_SFREMOVE then
      Done(r.(disks := r.disks[k := r.disks[k].(parts := Unmounted(r.disks[k].parts), status := DISK_SFREMOVE)]),
           SUCCESS)
    else if action == DISK_UDEV_REMOVE then Done(r.(disks := r.disks[..k] + r.disks[k + 1..]), SUCCESS)
    else Done(r, SUCCESS)
  }

  /** A call of udev_action_func, with what the system will answer. */
  datatype Event = Event(action: int, dev: string, major: int, lines: Lines, o: Oracle)

  function Act(r: Reg, majors: seq<Major>, e: Event): Done {
    if e.action == DISK_UDEV_ADD then MountProcess(r, majors, Only(e.dev), e.lines, e.o)
    else if e.action == DISK_WAKEUP then Wakeup(r, e.dev, e.major, e.o)
    else Remove(r, e.dev, e.major, e.action)
  }

  function Run(r: Reg, majors: seq<Major>, es: seq<Event>): Reg
    decreases |es|
  {
    if es == [] then r else Run(Act(r, majors, es[0]).r, majors, es[1..])
  }

  /** disk_init, once /proc/partitions could be opened. */
  function Init(majors: seq<Major>, lines: seq<Line>, o: Oracle): Reg {
    MountProcess(Reg([], 0, false), majors, Any, Some(lines), o).r.(inited := true)
  }

  // ----- What every event keeps

  predicate NamesUnique(ds: seq<Disk>) {
    forall i, j :: 0 <= i < j < |ds| ==> ds[i].name != ds[j].name
  }

  /** partnum counts the partitions, and nothing of a safely removed disk is marked mounted. */
  predicate DiskOk(d: Disk) {
    && d.partnum == |d.parts| && DISK_INIT <= d.status <= DISK_SFREMOVE
    && (d.status == DISK_SFREMOVE ==> forall i :: 0 <= i < |d.parts| ==> !d.parts[i].mounted)
  }

  predicate Inv(r: Reg) {
    NamesUnique(r.disks) && forall i :: 0 <= i < |r.disks| ==> DiskOk(r.disks[i])
  }

  lemma InsertInv(r: Reg, majors: seq<Major>, l: Line)
    requires Inv(r)
    ensures Inv(Insert(r, majors, l))
  {
    hide RoleOf, Listed;
  }

  lemma {:induction false} ScanInv(r: Reg, majors: seq<Major>, dev: Dev, lines: seq<Line>)
    requires Inv(r)
    ensures Inv(Scan(r, majors, dev, lines))
    decreases |lines|
  {
    hide Inv, Insert;
    if lines != [] {
      InsertInv(r, majors, lines[0]);
      var skip := lines[0].size == 1 || !Passes(dev, lines[0].name);
      ScanInv(if skip then r else Insert(r, majors, lines[0]), majors, dev, lines[1..]);
    }
  }

  lemma ConfirmOk(d: Disk, i: nat, o: Oracle)
    requires DiskOk(d)
    ensures DiskOk(Confirm(d, i, o)) && Confirm(d, i, o).name == d.name
  {
  }

  lemma MountOk(d: Disk, i: nat, o: Oracle)
    requires DiskOk(d)
    ensures DiskOk(Mount(d, i, o)) && Mount(d, i, o).name == d.name && Mount(d, i, o).status == DISK_MOUNTED
  {
  }

  /** A disk changed at one place. */
  lemma SetOne(r: Reg, k: nat, d: Disk)
    requires Inv(r) && k < |r.disks| && d.name == r.disks[k].name && DiskOk(d)
    ensures Inv(r.(disks := r.disks[k := d]))
  {
  }

  lemma SetAll(r: Reg, ds: seq<Disk>)
    requires Inv(r) && |ds| == |r.disks|
    requires forall i :: 0 <= i < |ds| ==> ds[i].name == r.disks[i].name && DiskOk(ds[i])
    ensures Inv(r.(disks := ds))
  {
  }

  lemma MountProcessInv(r: Reg, majors: seq<Major>, dev: Dev, lines: Lines, o: Oracle)
    requires Inv(r)
    ensures Inv(MountProcess(r, majors, dev, lines, o).r)
  {
    hide DiskOk, Confirm, Mount, Scan;
    if lines.Some? {
      ScanInv(r, majors, dev, lines.lines);
      var s := Scan(r, majors, dev, lines.lines);
      match dev {
        case Only(name) =>
          var k := FindDisk(s.disks, name);
          if k < |s.disks| {
            ConfirmOk(s.disks[k], k, o);
            MountOk(Confirm(s.disks[k], k, o), k, o);
            SetOne(s, k, Mount(Confirm(s.disks[k], k, o), k, o));
          }
        case Any =>
          var ds := MapFrom(s.disks, 0, (d: Disk, i: nat) => Confirm(d, i, o));
          forall i | 0 <= i < |ds|
            ensures ds[i].name == s.disks[i].name && DiskOk(ds[i])
          {
            ConfirmOk(s.disks[i], i, o);
          }
          SetAll(s, ds);
          var es := MapFrom(ds, 0, (d: Disk, i: nat) => Mount(d, i, o));
          forall i | 0 <= i < |es|
            ensures es[i].name == ds[i].name && DiskOk(es[i])
          {
            MountOk(ds[i], i, o);
          }
          SetAll(s.(disks := ds), es);
      }
    }
  }

  lemma ConfirmKnows(d: Disk, i: nat, o: Oracle, j: nat)
    requires DiskOk(d) && j < |Confirm(d, i, o).parts|
    ensures Confirm(d, i, o).parts[j].known == o(i, j).known && Confirm(d, i, o).isgpt == d.isgpt
  {
  }

  lemma MountMarks(d: Disk, i: nat, o: Oracle, j: nat)
    requires j < |d.parts|
    ensures var m := Mount(d, i, o);
            && |m.parts| == |d.parts| && m.isgpt == d.isgpt
            && (m.parts[j].mounted <==> if d.isgpt && o(i, j).efi then d.parts[j].mounted
                                        else o(i, j).already || (d.parts[j].known && o(i, j).mounts))
  {
  }

  lemma MountParts(d: Disk, i: nat, o: Oracle)
    ensures |Mount(d, i, o).parts| == |d.parts|
  {
  }

  lemma SameDisk(ds: seq<Disk>, k: nat, d: Disk)
    requires k < |ds| && FindDisk(ds, d.name) == k
    ensures FindDisk(ds[k := d], d.name) == k
  {
    assert ds[k := d][k] == d && forall j :: 0 <= j < k ==> ds[k := d][j] == ds[j];
  }

  lemma WakeupInv(r: Reg, dev: string, major: int, o: Oracle)
    requires Inv(r)
    ensures Inv(Wakeup(r, dev, major, o).r)
  {
    hide WakeFrom;
    var k := FindTarget(r.disks, dev, major);
    if k < |r.disks| {
      SetOne(r, k, r.disks[k].(parts := WakeFrom(r.disks[k].parts, 0, k, o).parts, status := DISK_MOUNTED));
    }
  }

  lemma RemoveInv(r: Reg, dev: string, major: int, action: int)
    requires Inv(r)
    ensures Inv(Remove(r, dev, major, action).r)
  {
    var k := FindDisk(r.disks, dev);
    if k < |r.disks| {
      SetOne(r, k, r.disks[k].(parts := Unmounted(r.disks[k].parts), status := DISK_SFREMOVE));
    }
  }

  lemma ActInv(r: Reg, majors: seq<Major>, e: Event)
    requires Inv(r)
    ensures Inv(Act(r, majors, e).r)
  {
    hide Inv, MountProcess, Wakeup, Remove;
    MountProcessInv(r, majors, Only(e.dev), e.lines, e.o);
    WakeupInv(r, e.dev, e.major, e.o);
    RemoveInv(r, e.dev, e.major, e.action);
  }

  /** Over every sequence of events after disk_init, whatever probing and mounting answer: disk names are
      unique, partnum is the number of partitions, and a disk with status DISK_SFREMOVE has none of
      its partitions marked mounted. */
  lemma {:induction false} RunInv(r: Reg, majors: seq<Major>, es: seq<Event>)
    requires Inv(r)
    ensures Inv(Run(r, majors, es))
    decreases |es|
  {
    hide Inv, Act;
    if es != [] {
      ActInv(r, majors, es[0]);
      RunInv(Act(r, majors, es[0]).r, majors, es[1..]);
    }
  }

  lemma RegistryInvariant(majors: seq<Major>, lines: seq<Line>, o: Oracle, es: seq<Event>)
    ensures Inv(Run(Init(majors, lines, o), majors, es))
  {
    hide MountProcess, Run;
    MountProcessInv(Reg([], 0, false), majors, Any, Some(lines), o);
    RunInv(Init(majors, lines, o), majors, es);
  }

  // ----- Partition names

  predicate PartsUnique(d: Disk) {
    forall i, j :: 0 <= i < j < |d.parts| ==> d.parts[i].name != d.parts[j].name
  }

  predicate PrefixFree(names: set<string>) {
    forall a, b :: a in names && b in names && a <= b ==> a == b
  }

  /** The line names a disk out of `names`, or a partition whose name starts with that of a disk out of
      `names` (as every sd partition's does). */
  predicate Sane(majors: seq<Major>, l: Line, names: set<string>) {
    match RoleOf(majors, l)
    case Main => l.name in names
    case Partition(owner) => owner in names && owner <= l.name
    case Alien => true
  }

  predicate SaneLines(majors: seq<Major>, lines: seq<Line>, names: set<string>) {
    forall i :: 0 <= i < |lines| ==> Sane(majors, lines[i], names)
  }

  predicate NamesInv(ds: seq<Disk>, names: set<string>) {
    forall i :: 0 <= i < |ds| ==> ds[i].name in names && PartsUnique(ds[i])
  }

  lemma TwoPrefixes(a: string, b: string, c: string)
    requires a <= c && b <= c
    ensures a <= b || b <= a
  {
  }

  /** Among disks none of whose names is a prefix of another, the first one that a partition's name
      starts with is its own. */
  lemma OwnerFound(ds: seq<Disk>, names: set<string>, owner: string, name: string)
    requires PrefixFree(names) && owner in names && owner <= name
    requires forall i :: 0 <= i < |ds| ==> ds[i].name in names
    ensures FindDisk(ds, owner) < |ds| ==> FindOwner(ds, name) == FindDisk(ds, owner)
  {
    var k, j := FindDisk(ds, owner), FindOwner(ds, name);
    if k < |ds| {
      assert j <= k;
      assert ds[j].name <= name;
      TwoPrefixes(ds[j].name, owner, name);
    }
  }

  lemma WithPartUnique(d: Disk, p: Part)
    requires PartsUnique(d) && !HasPart(d, p.name)
    ensures PartsUnique(WithPart(d, p))
  {
  }

  lemma InsertNames(r: Reg, majors: seq<Major>, l: Line, names: set<string>)
    requires PrefixFree(names) && Sane(majors, l, names) && NamesInv(r.disks, names)
    ensures NamesInv(Insert(r, majors, l).disks, names)
  {
    hide RoleOf, PartsUnique, HasPart, WithPart, PrefixFree, NamesInv;
    match RoleOf(majors, l) {
      case Partition(owner) =>
        var k := FindDisk(r.disks, owner);
        var d := NewDisk(owner, l.major, l.ownerGpt, 0);
        AddNames(r.disks, d, names);
        var ds := if k < |r.disks| then r.disks else r.disks + [d];
        if k == |r.disks| {
          NewOwner(r.disks, d, owner);
        }
        NamesAt(ds, names);
        OwnerFound(ds, names, owner, l.name);
        if !Listed(ds, l.name) {
          SetNames(ds, k, Part(l.name, false, false), names);
        }
      case Main => AddNames(r.disks, NewDisk(l.name, l.major, l.gpt, r.plugs), names);
      case Alien =>
    }
  }

  lemma NamesAt(ds: seq<Disk>, names: set<string>)
    requires NamesInv(ds, names)
    ensures forall i :: 0 <= i < |ds| ==> ds[i].name in names
  {
  }

  lemma AddNames(ds: seq<Disk>, d: Disk, names: set<string>)
    requires NamesInv(ds, names) && d.name in names && d.parts == []
    ensures NamesInv(ds + [d], names)
  {
  }

  lemma SetNames(ds: seq<Disk>, k: nat, p: Part, names: set<string>)
    requires NamesInv(ds, names) && k < |ds| && !HasPart(ds[k], p.name)
    ensures NamesInv(ds[k := WithPart(ds[k], p)], names)
  {
    hide PartsUnique;
    WithPartUnique(ds[k], p);
  }

  lemma {:induction false} NewOwner(ds: seq<Disk>, d: Disk, owner: string)
    requires FindDisk(ds, owner) == |ds| && d.name == owner
    ensures FindDisk(ds + [d], owner) == |ds|
  {
    var k := FindDisk(ds + [d], owner);
    assert (ds + [d])[|ds|] == d;
    assert forall j :: 0 <= j < |ds| ==> (ds + [d])[j] == ds[j];
  }

  lemma {:induction false} ScanNames(r: Reg, majors: seq<Major>, dev: Dev, lines: seq<Line>, names: set<string>)
    requires PrefixFree(names) && SaneLines(majors, lines, names) && NamesInv(r.disks, names)
    ensures NamesInv(Scan(r, majors, dev, lines).disks, names)
    decreases |lines|
  {
    hide NamesInv, Insert, Sane, PrefixFree;
    if lines != [] {
      InsertNames(r, majors, lines[0], names);
      var skip := lines[0].size == 1 || !Passes(dev, lines[0].name);
      ScanNames(if skip then r else Insert(r, majors, lines[0]), majors, dev, lines[1..], names);
    }
  }

  lemma ConfirmNames(d: Disk, i: nat, o: Oracle)
    requires PartsUnique(d) && DiskOk(d)
    ensures PartsUnique(Confirm(d, i, o))
  {
  }

  lemma MountNames(d: Disk, i: nat, o: Oracle)
    requires PartsUnique(d)
    ensures PartsUnique(Mount(d, i, o))
  {
    var ps := Mount(d, i, o).parts;
    forall j | 0 <= j < |d.parts|
      ensures ps[j].name == d.parts[j].name
    {
      assert ps[j] == MountPart(d.parts[j], d.isgpt, o(i, j));
    }
  }

  lemma MountProcessNames(r: Reg, majors: seq<Major>, dev: Dev, lines: Lines, o: Oracle, names: set<string>)
    requires Inv(r) && PrefixFree(names) && NamesInv(r.disks, names)
    requires lines.Some? ==> SaneLines(majors, lines.lines, names)
    ensures NamesInv(MountProcess(r, majors, dev, lines, o).r.disks, names)
  {
    hide DiskOk, Confirm, Mount, Scan, PartsUnique, SaneLines, PrefixFree, NamesUnique;
    if lines.Some? {
      ScanInv(r, majors, dev, lines.lines);
      ScanNames(r, majors, dev, lines.lines, names);
      var s := Scan(r, majors, dev, lines.lines);
      match dev {
        case Only(name) =>
          var k := FindDisk(s.disks, name);
          if k < |s.disks| {
            ConfirmOk(s.disks[k], k, o);
            ConfirmNames(s.disks[k], k, o);
            MountOk(Confirm(s.disks[k], k, o), k, o);
            MountNames(Confirm(s.disks[k], k, o), k, o);
          }
        case Any =>
          var ds := MapFrom(s.disks, 0, (d: Disk, i: nat) => Confirm(d, i, o));
          var es := MapFrom(ds, 0, (d: Disk, i: nat) => Mount(d, i, o));
          forall i | 0 <= i < |es|
            ensures es[i].name in names && PartsUnique(es[i])
          {
            ConfirmOk(s.disks[i], i, o);
            ConfirmNames(s.disks[i], i, o);
            MountOk(ds[i], i, o);
            MountNames(ds[i], i, o);
          }
      }
    }
  }

  predicate SaneEvent(majors: seq<Major>, e: Event, names: set<string>) {
    e.lines.Some? ==> SaneLines(majors, e.lines.lines, names)
  }

  lemma ActNames(r: Reg, majors: seq<Major>, e: Event, names: set<string>)
    requires Inv(r) && PrefixFree(names) && NamesInv(r.disks, names) && SaneEvent(majors, e, names)
    ensures NamesInv(Act(r, majors, e).r.disks, names)
  {
    hide MountProcess, SaneLines, PrefixFree;
    MountProcessNames(r, majors, Only(e.dev), e.lines, e.o, names);
  }

  /** Partition names within a disk are unique over every sequence of events in which no disk's name is a
      prefix of another's. */
  lemma {:induction false} RunNames(r: Reg, majors: seq<Major>, es: seq<Event>, names: set<string>)
    requires Inv(r) && PrefixFree(names) && NamesInv(r.disks, names)
    requires forall i :: 0 <= i < |es| ==> SaneEvent(majors, es[i], names)
    ensures NamesInv(Run(r, majors, es).disks, names)
    decreases |es|
  {
    hide Inv, Act, SaneEvent, PrefixFree, NamesInv;
    if es != [] {
      ActInv(r, majors, es[0]);
      ActNames(r, majors, es[0], names);
      RunNames(Act(r, majors, es[0]).r, majors, es[1..], names);
    }
  }

  /** So in every run from disk_init on. */
  lemma RegistryNames(majors: seq<Major>, lines: seq<Line>, o: Oracle, es: seq<Event>, names: set<string>)
    requires PrefixFree(names) && SaneLines(majors, lines, names)
    requires forall i :: 0 <= i < |es| ==> SaneEvent(majors, es[i], names)
    ensures NamesInv(Run(Init(majors, lines, o), majors, es).disks, names)
  {
    hide MountProcess, Run, SaneLines, SaneEvent, PrefixFree, Inv;
    EmptyOk(names);
    MountProcessInv(Reg([], 0, false), majors, Any, Some(lines), o);
    MountProcessNames(Reg([], 0, false), majors, Any, Some(lines), o, names);
    InitOk(MountProcess(Reg([], 0, false), majors, Any, Some(lines), o).r);
    RunNames(Init(majors, lines, o), majors, es, names);
  }

  lemma EmptyOk(names: set<string>)
    ensures Inv(Reg([], 0, false)) && NamesInv([], names)
  {
  }

  lemma InitOk(r: Reg)
    requires Inv(r)
    ensures Inv(r.(inited := true))
  {
  }

  // ----- Where partitions are filed

  /** A naming: which disk a device name belongs to. */
  ghost predicate Naming(own: string -> string) {
    forall name: string :: own(own(name)) == own(name)
  }

  /** The line fits the naming: a disk belongs to itself, a partition to its owner. */
  predicate Named(majors: seq<Major>, l: Line, own: string -> string) {
    match RoleOf(majors, l)
    case Main => own(l.name) == l.name
    case Partition(owner) => own(l.name) == owner
    case Alien => true
  }

  predicate NamedLines(majors: seq<Major>, lines: seq<Line>, own: string -> string) {
    forall i :: 0 <= i < |lines| ==> Named(majors, lines[i], own)
  }

  predicate NamedEvent(majors: seq<Major>, e: Event, own: string -> string) {
    e.lines.Some? ==> NamedLines(majors, e.lines.lines, own)
  }

  predicate FiledDisk(d: Disk, own: string -> string) {
    own(d.name) == d.name && forall j :: 0 <= j < |d.parts| ==> own(d.parts[j].name) == d.name
  }

  /** Every partition is filed under the disk it belongs to. */
  predicate Filed(ds: seq<Disk>, own: string -> string) {
    forall i :: 0 <= i < |ds| ==> FiledDisk(ds[i], own)
  }

  /** Names of sd devices have such a naming: the name without the digits at its end. */
  lemma {:induction false} SdNaming(majors: seq<Major>, l: Line)
    requires l.major == 8
    ensures Naming(StripDigits) && Named(majors, l, StripDigits)
  {
    forall name: string
      ensures StripDigits(StripDigits(name)) == StripDigits(name)
    {
      StripTwice(name);
    }
  }

  lemma {:induction false} StripTwice(name: string)
    ensures StripDigits(StripDigits(name)) == StripDigits(name)
  {
    if name != "" && IsDigit(name[|name| - 1]) {
      StripTwice(name[..|name| - 1]);
    }
  }

  lemma InsertFiled(r: Reg, majors: seq<Major>, l: Line, own: string -> string)
    requires Naming(own) && Named(majors, l, own) && Filed(r.disks, own)
    ensures Filed(Insert(r, majors, l).disks, own)
  {
    hide RoleOf, Listed, FindDisk;
    var role := RoleOf(majors, l);
    if role.Partition? {
      assert own(role.owner) == role.owner;
    }
  }

  lemma {:induction false} ScanFiled(r: Reg, majors: seq<Major>, dev: Dev, lines: seq<Line>, own: string -> string)
    requires Naming(own) && NamedLines(majors, lines, own) && Filed(r.disks, own)
    ensures Filed(Scan(r, majors, dev, lines).disks, own)
    decreases |lines|
  {
    hide Naming, Filed, Insert, Named;
    if lines != [] {
      InsertFiled(r, majors, lines[0], own);
      var skip := lines[0].size == 1 || !Passes(dev, lines[0].name);
      ScanFiled(if skip then r else Insert(r, majors, lines[0]), majors, dev, lines[1..], own);
    }
  }

  lemma ConfirmFiled(d: Disk, i: nat, o: Oracle, own: string -> string)
    requires FiledDisk(d, own)
    ensures FiledDisk(Confirm(d, i, o), own)
  {
  }

  lemma MountFiled(d: Disk, i: nat, o: Oracle, own: string -> string)
    requires FiledDisk(d, own)
    ensures FiledDisk(Mount(d, i, o), own)
  {
    var ps := Mount(d, i, o).parts;
    forall j | 0 <= j < |d.parts|
      ensures ps[j].name == d.parts[j].name
    {
      assert ps[j] == MountPart(d.parts[j], d.isgpt, o(i, j));
    }
  }

  lemma MountProcessFiled(r: Reg, majors: seq<Major>, dev: Dev, lines: Lines, o: Oracle, own: string -> string)
    requires Naming(own) && (lines.Some? ==> NamedLines(majors, lines.lines, own)) && Filed(r.disks, own)
    ensures Filed(MountProcess(r, majors, dev, lines, o).r.disks, own)
  {
    hide Naming, NamedLines, FiledDisk, Confirm, Mount, Scan;
    if lines.Some? {
      ScanFiled(r, majors, dev, lines.lines, own);
      var s := Scan(r, majors, dev, lines.lines);
      match dev {
        case Only(name) =>
          var k := FindDisk(s.disks, name);
          if k < |s.disks| {
            ConfirmFiled(s.disks[k], k, o, own);
            MountFiled(Confirm(s.disks[k], k, o), k, o, own);
          }
        case Any =>
          var ds := MapFrom(s.disks, 0, (d: Disk, i: nat) => Confirm(d, i, o));
          var es := MapFrom(ds, 0, (d: Disk, i: nat) => Mount(d, i, o));
          forall i | 0 <= i < |es|
            ensures FiledDisk(es[i], own)
          {
            ConfirmFiled(s.disks[i], i, o, own);
            MountFiled(ds[i], i, o, own);
          }
      }
    }
  }

  lemma ActFiled(r: Reg, majors: seq<Major>, e: Event, own: string -> string)
    requires Naming(own) && NamedEvent(majors, e, own) && Filed(r.disks, own)
    ensures Filed(Act(r, majors, e).r.disks, own)
  {
    hide MountProcess, NamedLines, Naming, WakeFrom;
    MountProcessFiled(r, majors, Only(e.dev), e.lines, e.o, own);
  }

  lemma {:induction false} RunFiled(r: Reg, majors: seq<Major>, es: seq<Event>, own: string -> string)
    requires Naming(own) && Filed(r.disks, own) && forall i :: 0 <= i < |es| ==> NamedEvent(majors, es[i], own)
    ensures Filed(Run(r, majors, es).disks, own)
    decreases |es|
  {
    hide Naming, Filed, Act, NamedEvent;
    if es != [] {
      ActFiled(r, majors, es[0], own);
      RunFiled(Act(r, majors, es[0]).r, majors, es[1..], own);
    }
  }

  lemma OnlyThere(r: Reg, own: string -> string, name: string, j: nat, k: nat)
    requires Inv(r) && Filed(r.disks, own) && k < |r.disks| && r.disks[k].name == own(name)
    requires j <= |r.disks|
    ensures j < |r.disks| && HasPart(r.disks[j], name) ==> j == k
  {
    if j < |r.disks| && HasPart(r.disks[j], name) {
      assert FiledDisk(r.disks[j], own);
    }
  }

  /** Seeing a partition that its disk `k` has already puts it in a second time exactly when the search
      does not lead to that disk: its name does not start with the disk's, or it starts with that of a
      disk before it. */
  lemma DuplicatedIff(r: Reg, majors: seq<Major>, l: Line, own: string -> string)
    requires Inv(r) && Filed(r.disks, own) && Named(majors, l, own) && RoleOf(majors, l).Partition?
    requires var k := FindDisk(r.disks, RoleOf(majors, l).owner); k < |r.disks| && HasPart(r.disks[k], l.name)
    ensures var owner := RoleOf(majors, l).owner;
            var k := FindDisk(r.disks, owner);
            var t := Insert(r, majors, l);
            var led := owner <= l.name && forall i :: 0 <= i < k ==> !(r.disks[i].name <= l.name);
            && t == (if led then r else r.(disks := r.disks[k := WithPart(r.disks[k], Part(l.name, false, false))]))
            && (PartsUnique(r.disks[k]) ==> (PartsUnique(t.disks[k]) <==> led))
  {
    hide RoleOf;
    var owner := RoleOf(majors, l).owner;
    var k := FindDisk(r.disks, owner);
    var j := FindOwner(r.disks, l.name);
    OnlyThere(r, own, l.name, j, k);
    if j == k {
      assert Insert(r, majors, l) == r.(disks := r.disks) == r;
    } else {
      var d := r.disks[k];
      var m :| 0 <= m < |d.parts| && d.parts[m].name == l.name;
      var e := WithPart(d, Part(l.name, false, false));
      assert e.parts[m].name == e.parts[|d.parts|].name;
    }
  }

  /** So in every run from disk_init on whose lines fit a naming. */
  lemma DuplicatedInRun(majors: seq<Major>, lines: seq<Line>, o: Oracle, es: seq<Event>, l: Line, own: string -> string)
    requires Naming(own) && NamedLines(majors, lines, own) && Named(majors, l, own) && RoleOf(majors, l).Partition?
    requires forall i :: 0 <= i < |es| ==> NamedEvent(majors, es[i], own)
    requires var r := Run(Init(majors, lines, o), majors, es);
             var k := FindDisk(r.disks, RoleOf(majors, l).owner);
             k < |r.disks| && HasPart(r.disks[k], l.name) && PartsUnique(r.disks[k])
    ensures var r := Run(Init(majors, lines, o), majors, es);
            var owner := RoleOf(majors, l).owner;
            var k := FindDisk(r.disks, owner);
            PartsUnique(Insert(r, majors, l).disks[k]) <==>
            owner <= l.name && forall i :: 0 <= i < k ==> !(r.disks[i].name <= l.name)
  {
    hide MountProcess, Run, NamedLines, NamedEvent, Naming, Named, RoleOf, Inv, Filed, PartsUnique, HasPart, Insert;
    RegistryInvariant(majors, lines, o, es);
    NothingFiled(own);
    MountProcessFiled(Reg([], 0, false), majors, Any, Some(lines), o, own);
    RunFiled(Init(majors, lines, o), majors, es, own);
    DuplicatedIff(Run(Init(majors, lines, o), majors, es), majors, l, own);
  }

  lemma NothingFiled(own: string -> string)
    ensures Filed([], own)
  {
  }

  const SD := Major(8, false)

  function SdLine(name: string): Line {
    Line(8, 1, 1000, name, false, true, false)
  }

  /** A partition table with the disks sda and sdaa, and a partition of the second. */
  const SD_TABLE := [SdLine("sda"), SdLine("sdaa"), SdLine("sdaa1")]

  lemma SdRoles()
    ensures RoleOf([SD], SdLine("sda")) == Main && RoleOf([SD], SdLine("sdaa")) == Main
    ensures RoleOf([SD], SdLine("sdaa1")) == Partition("sdaa")
  {
    assert "sdaa1"[..4] == "sdaa";
    assert StripDigits("sdaa1") == StripDigits("sdaa");
  }

  /** The two disks, with sdaa1 on the second as often as `n` says. */
  predicate TwoDisks(ds: seq<Disk>, n: nat) {
    && |ds| == 2 && ds[0].name == "sda" && ds[1].name == "sdaa" && !HasPart(ds[0], "sdaa1")
    && |ds[1].parts| == n && ds[1].partnum == n && forall j :: 0 <= j < n ==> ds[1].parts[j].name == "sdaa1"
  }

  lemma SdPrefixes()
    ensures "sda" <= "sdaa1" && "sdaa" <= "sdaa1" && "sdaa" <= "sdaa" && !("sdaa" <= "sda") && "sda" != "sdaa"
  {
    assert "sdaa1"[..3] == "sda" && "sdaa1"[..4] == "sdaa";
  }

  lemma SeenAgain(r: Reg, n: nat)
    requires TwoDisks(r.disks, n)
    ensures Insert(r, [SD], SdLine("sda")) == r && Insert(r, [SD], SdLine("sdaa")) == r
    ensures TwoDisks(Insert(r, [SD], SdLine("sdaa1")).disks, n + 1)
    ensures Insert(r, [SD], SdLine("sdaa1")).disks[0] == r.disks[0]
  {
    hide RoleOf;
    SdRoles();
    SdPrefixes();
    assert FindDisk(r.disks, "sda") == 0 && FindDisk(r.disks, "sdaa") == 1;
    assert FindOwner(r.disks, "sdaa1") == 0;
    assert !Listed(r.disks, "sdaa1");
  }

  lemma FirstDisk()
    ensures Insert(Reg([], 0, false), [SD], SdLine("sda")) == Reg([NewDisk("sda", 8, false, 0)], 1, false)
  {
    hide RoleOf;
    SdRoles();
    assert FindDisk([], "sda") == 0;
    assert [] + [NewDisk("sda", 8, false, 0)] == [NewDisk("sda", 8, false, 0)];
  }

  lemma SecondDisk()
    ensures Insert(Reg([NewDisk("sda", 8, false, 0)], 1, false), [SD], SdLine("sdaa"))
         == Reg([NewDisk("sda", 8, false, 0), NewDisk("sdaa", 8, false, 1)], 2, false)
  {
    hide RoleOf;
    SdRoles();
    var a, b := NewDisk("sda", 8, false, 0), NewDisk("sdaa", 8, false, 1);
    assert "sda" != "sdaa" by { SdPrefixes(); }
    assert FindDisk([a], "sdaa") == 1;
    assert [a] + [b] == [a, b];
  }

  lemma InitScans()
    ensures var r := Scan(Reg([], 0, false), [SD], Any, SD_TABLE);
            TwoDisks(r.disks, 1) && r.disks[0].parts == [] && r.disks[0].partnum == 0
  {
    hide Insert, Scan;
    FirstDisk();
    SecondDisk();
    var r2 := Reg([NewDisk("sda", 8, false, 0), NewDisk("sdaa", 8, false, 1)], 2, false);
    assert TwoDisks(r2.disks, 0) by { SdPrefixes(); }
    SeenAgain(r2, 0);
    ScanThree(Reg([], 0, false), [SD], Any, SD_TABLE);
  }

  lemma ScanThree(r: Reg, majors: seq<Major>, dev: Dev, lines: seq<Line>)
    requires |lines| == 3 && forall i :: 0 <= i < 3 ==> lines[i].size != 1
    ensures var r1 := if Passes(dev, lines[0].name) then Insert(r, majors, lines[0]) else r;
            var r2 := if Passes(dev, lines[1].name) then Insert(r1, majors, lines[1]) else r1;
            var r3 := if Passes(dev, lines[2].name) then Insert(r2, majors, lines[2]) else r2;
            Scan(r, majors, dev, lines) == r3
  {
    hide Insert, Passes;
    assert lines[1..][1..] == [lines[2]] && lines[1..][0] == lines[1];
    var r1 := if Passes(dev, lines[0].name) then Insert(r, majors, lines[0]) else r;
    var r2 := if Passes(dev, lines[1].name) then Insert(r1, majors, lines[1]) else r1;
    var r3 := if Passes(dev, lines[2].name) then Insert(r2, majors, lines[2]) else r2;
    assert Scan(r3, majors, dev, []) == r3;
    assert [lines[2]][1..] == [];
    assert Scan(r2, majors, dev, [lines[2]]) == r3;
    assert Scan(r1, majors, dev, lines[1..]) == Scan(r2, majors, dev, [lines[2]]);
  }

  lemma MountKeepsNames(d: Disk, i: nat, o: Oracle)
    requires d.partnum == |d.parts|
    ensures var m := Mount(Confirm(d, i, o), i, o);
            && m.name == d.name && m.partnum == |m.parts|
            && (d.parts == [] ==> |m.parts| == 1 && m.parts[0].name == d.name)
            && (d.parts != [] ==> |m.parts| == |d.parts| && forall j :: 0 <= j < |d.parts| ==> m.parts[j].name == d.parts[j].name)
  {
    var c := Confirm(d, i, o);
    var m := Mount(c, i, o);
    assert forall j :: 0 <= j < |c.parts| ==> m.parts[j] == MountPart(c.parts[j], c.isgpt, o(i, j));
  }

  /** A run in which a partition is registered twice: the table has the disks sda and sdaa, and sdaa1; after
      disk_init, an add event for sdaa sees the same table again. Whatever probing and mounting say. */
  lemma TwiceRegistered(o: Oracle, p: Oracle)
    ensures var r := Run(Init([SD], SD_TABLE, o), [SD], [Event(DISK_UDEV_ADD, "sdaa", ANY_MAJOR, Some(SD_TABLE), p)]);
            TwoDisks(r.disks, 2) && !PartsUnique(r.disks[1])
  {
    hide Scan, Confirm, Mount, Insert, TwoDisks, PartsUnique, Run;
    InitScans();
    var s := Scan(Reg([], 0, false), [SD], Any, SD_TABLE);
    var r := Init([SD], SD_TABLE, o);
    InitMounts(s, o);
    assert TwoDisks(r.disks, 1);
    var e := Event(DISK_UDEV_ADD, "sdaa", ANY_MAJOR, Some(SD_TABLE), p);
    AddScans(r);
    AddMounts(Scan(r, [SD], Only("sdaa"), SD_TABLE), p);
    assert MountProcess(r, [SD], Only("sdaa"), Some(SD_TABLE), p).r == Act(r, [SD], e).r;
    RunOne(r, [SD], e);
    TwiceIsNotUnique(Run(r, [SD], [e]).disks);
  }

  lemma RunOne(r: Reg, majors: seq<Major>, e: Event)
    ensures Run(r, majors, [e]) == Act(r, majors, e).r
  {
    hide Act;
    assert [e][1..] == [];
    assert Run(Act(r, majors, e).r, majors, []) == Act(r, majors, e).r;
  }

  lemma InitMounts(s: Reg, o: Oracle)
    requires TwoDisks(s.disks, 1) && s.disks[0].parts == [] && s.disks[0].partnum == 0
    ensures var ds := MapFrom(s.disks, 0, (d: Disk, i: nat) => Confirm(d, i, o));
            TwoDisks(MapFrom(ds, 0, (d: Disk, i: nat) => Mount(d, i, o)), 1)
  {
    hide Confirm, Mount;
    MountKeepsNames(s.disks[0], 0, o);
    MountKeepsNames(s.disks[1], 1, o);
    SdPrefixes();
  }

  lemma AddScans(r: Reg)
    requires TwoDisks(r.disks, 1)
    ensures TwoDisks(Scan(r, [SD], Only("sdaa"), SD_TABLE).disks, 2)
  {
    hide RoleOf, Insert;
    SdPrefixes();
    SeenAgain(r, 1);
    ScanThree(r, [SD], Only("sdaa"), SD_TABLE);
  }

  lemma AddMounts(s: Reg, p: Oracle)
    requires TwoDisks(s.disks, 2)
    ensures var k := FindDisk(s.disks, "sdaa");
            && k == 1 && var ds := s.disks[k := Mount(Confirm(s.disks[k], k, p), k, p)];
               TwoDisks(ds, 2)
  {
    hide Confirm, Mount;
    SdPrefixes();
    assert FindDisk(s.disks, "sdaa") == 1;
    MountKeepsNames(s.disks[1], 1, p);
  }

  lemma TwiceIsNotUnique(ds: seq<Disk>)
    requires TwoDisks(ds, 2)
    ensures !PartsUnique(ds[1])
  {
    assert ds[1].parts[0].name == ds[1].parts[1].name;
  }

  /** Every sd partition's name starts with that of its disk. */
  lemma SdOwnerIsPrefix(majors: seq<Major>, l: Line)
    requires l.major == 8 && RoleOf(majors, l).Partition?
    ensures RoleOf(majors, l).owner <= l.name && RoleOf(majors, l).owner != l.name
  {
  }

  // ----- What one event does, and another undoes

  function Ready(d: Disk): seq<(string, nat)> {
    if d.status == DISK_MOUNTED then [(d.name, d.plugcount)] else []
  }

  /** The disks a LUN reply is about, with their plug counts. */
  function ReadyDisks(ds: seq<Disk>): seq<(string, nat)> {
    if ds == [] then [] else Ready(ds[0]) + ReadyDisks(ds[1..])
  }

  lemma Regroup(x: seq<(string, nat)>, y: seq<(string, nat)>, z: seq<(string, nat)>)
    ensures x + (y + z) == (x + y) + z
  {
  }

  lemma ReadyNone()
    ensures ReadyDisks([]) == []
  {
  }

  lemma ReadyCons(d: Disk, ds: seq<Disk>)
    ensures ReadyDisks([d] + ds) == Ready(d) + ReadyDisks(ds)
  {
    hide Ready;
    assert ([d] + ds)[1..] == ds;
  }

  lemma {:induction false} ReadyJoin(a: seq<Disk>, b: seq<Disk>)
    ensures ReadyDisks(a + b) == ReadyDisks(a) + ReadyDisks(b)
  {
    hide Ready, ReadyDisks;
    if a == [] {
      ReadyNone();
      assert a + b == b;
    } else {
      ReadyJoin(a[1..], b);
      Regroup(Ready(a[0]), ReadyDisks(a[1..]), ReadyDisks(b));
      ReadyCons(a[0], a[1..]);
      ReadyCons(a[0], a[1..] + b);
      assert a == [a[0]] + a[1..] && a + b == [a[0]] + (a[1..] + b);
    }
  }

  lemma {:induction false} ReadyNames(ds: seq<Disk>, name: string)
    requires forall i :: 0 <= i < |ds| ==> ds[i].name != name || ds[i].status != DISK_MOUNTED
    ensures forall i :: 0 <= i < |ReadyDisks(ds)| ==> ReadyDisks(ds)[i].0 != name
  {
    if ds != [] {
      ReadyNames(ds[1..], name);
    }
  }

  /** Around one disk. */
  lemma ReadyAround(ds: seq<Disk>, k: nat, d: Disk)
    requires k < |ds|
    ensures ReadyDisks(ds[k := d]) == ReadyDisks(ds[..k]) + ReadyDisks([d]) + ReadyDisks(ds[k + 1..])
  {
    assert ds[k := d] == (ds[..k] + [d]) + ds[k + 1..];
    ReadyJoin(ds[..k] + [d], ds[k + 1..]);
    ReadyJoin(ds[..k], [d]);
  }

  lemma {:induction false} TargetIs(ds: seq<Disk>, dev: string)
    ensures FindTarget(ds, dev, ANY_MAJOR) == FindDisk(ds, dev)
  {
    if ds != [] && ds[0].name != dev {
      TargetIs(ds[1..], dev);
    }
  }

  lemma {:induction false} FindsSame(ds: seq<Disk>, name: string, k: nat)
    requires k < |ds| && ds[k].name == name && forall j :: 0 <= j < k ==> ds[j].name != name
    ensures FindDisk(ds, name) == k
  {
    if k > 0 {
      FindsSame(ds[1..], name, k - 1);
    }
  }

  /** The first partition from `j` on that the system has mounted already, if there is one among `n`. */
  function FirstMounted(n: nat, j: nat, i: nat, o: Oracle): (f: nat)
    requires j <= n
    ensures j <= f <= n && (f < n ==> o(i, f).already) && forall k :: j <= k < f ==> !o(i, k).already
    decreases n - j
  {
    if j == n || o(i, j).already then j else FirstMounted(n, j + 1, i, o)
  }

  /** Waking goes partition after partition, up to the first that is mounted already. */
  lemma {:induction false} WakesUpTo(parts: seq<Part>, j: nat, i: nat, o: Oracle)
    requires j <= |parts|
    ensures var w, f := WakeFrom(parts, j, i, o), FirstMounted(|parts|, j, i, o);
            && (w.early <==> f < |parts|) && w.parts[..j] == parts[..j] && w.parts[f..] == parts[f..]
            && forall k :: j <= k < f ==> w.parts[k] == parts[k].(mounted := o(i, k).mounts)
    decreases |parts| - j
  {
    if j < |parts| && !o(i, j).already {
      var next := parts[j := parts[j].(mounted := o(i, j).mounts)];
      WakesUpTo(next, j + 1, i, o);
      var w := WakeFrom(next, j + 1, i, o);
      assert w.parts[j] == w.parts[..j + 1][j] == next[..j + 1][j];
      assert w.parts[..j] == w.parts[..j + 1][..j] == next[..j + 1][..j] == parts[..j];
    }
  }

  /** A safe removal takes the disk, and only it, out of the LUN replies and marks all of it unmounted;
      waking it up always puts the reply back as it was. Before the first partition that the system has
      mounted already, it marks mounted what could be mounted; that partition and those behind it stay
      marked unmounted, and the wakeup then reports that there was nothing to do. */
  lemma SafeRemoveThenWake(r: Reg, dev: string, o: Oracle)
    requires Inv(r) && FindDisk(r.disks, dev) < |r.disks|
    requires r.disks[FindDisk(r.disks, dev)].status == DISK_MOUNTED
    ensures var k := FindDisk(r.disks, dev);
            var removed := Remove(r, dev, ANY_MAJOR, DISK_SFREMOVE);
            var woken := Wakeup(removed.r, dev, ANY_MAJOR, o);
            var n := |r.disks[k].parts|;
            var f := FirstMounted(n, 0, k, o);
            && removed.code == SUCCESS && woken.code == (if f == n then SUCCESS else NOTHING)
            && ReadyDisks(removed.r.disks) == ReadyDisks(r.disks[..k]) + ReadyDisks(r.disks[k + 1..])
            && (forall i :: 0 <= i < |ReadyDisks(removed.r.disks)| ==> ReadyDisks(removed.r.disks)[i].0 != dev)
            && ReadyDisks(woken.r.disks) == ReadyDisks(r.disks)
            && woken.r.disks == r.disks[k := woken.r.disks[k]]
            && |woken.r.disks[k].parts| == n
            && forall j :: 0 <= j < n ==>
                 && woken.r.disks[k].parts[j].name == r.disks[k].parts[j].name
                 && (woken.r.disks[k].parts[j].mounted <==> j < f && o(k, j).mounts)
  {
    hide ReadyDisks, WakeFrom, FirstMounted;
    var k := FindDisk(r.disks, dev);
    var d := r.disks[k];
    var gone := d.(parts := Unmounted(d.parts), status := DISK_SFREMOVE);
    var ds := r.disks[k := gone];
    FindsSame(ds, dev, k);
    TargetIs(ds, dev);
    var parts := WakeFrom(gone.parts, 0, k, o).parts;
    WokenMarks(d.parts, k, o);
    var back := gone.(parts := parts, status := DISK_MOUNTED);
    assert ds[k := back] == r.disks[k := back] && r.disks[k := d] == r.disks;
    ReadyAround(r.disks, k, gone);
    ReadyAround(r.disks, k, back);
    ReadyAround(r.disks, k, d);
    ReadyOne(gone);
    ReadyOne(back);
    ReadyOne(d);
    assert ReadyDisks(r.disks[..k]) + [] == ReadyDisks(r.disks[..k]);
    ReadyNames(ds, dev);
  }

  lemma WokenMarks(parts: seq<Part>, k: nat, o: Oracle)
    ensures var w, f := WakeFrom(Unmounted(parts), 0, k, o), FirstMounted(|parts|, 0, k, o);
            && (w.early <==> f < |parts|)
            && forall j :: 0 <= j < |parts| ==>
                 w.parts[j].name == parts[j].name && (w.parts[j].mounted <==> j < f && o(k, j).mounts)
  {
    hide WakeFrom, FirstMounted;
    var gone := Unmounted(parts);
    WakesUpTo(gone, 0, k, o);
    var w, f := WakeFrom(gone, 0, k, o), FirstMounted(|parts|, 0, k, o);
    assert forall j :: f <= j < |parts| ==> w.parts[j] == w.parts[f..][j - f] == gone[j];
  }

  lemma ReadyOne(d: Disk)
    ensures ReadyDisks([d]) == Ready(d)
  {
    assert ReadyDisks([d]) == Ready(d) + ReadyDisks([]);
  }

  /** A removal always succeeds on a registered disk: the disk is gone, and the others stand in their
      order, untouched. */
  lemma RemoveForgets(r: Reg, dev: string)
    requires Inv(r) && FindDisk(r.disks, dev) < |r.disks|
    ensures var k := FindDisk(r.disks, dev);
            var t := Remove(r, dev, ANY_MAJOR, DISK_UDEV_REMOVE);
            && t.code == SUCCESS && t.r.disks == r.disks[..k] + r.disks[k + 1..]
            && FindDisk(t.r.disks, dev) == |t.r.disks|
  {
    var k := FindDisk(r.disks, dev);
    var ds := Remove(r, dev, ANY_MAJOR, DISK_UDEV_REMOVE).r.disks;
    assert forall i :: 0 <= i < |ds| ==> ds[i].name != dev;
  }

  // ----- What start-up does

  /** All the disks, with their plug counts. */
  function AllDisks(ds: seq<Disk>): seq<(string, nat)> {
    if ds == [] then [] else [(ds[0].name, ds[0].plugcount)] + AllDisks(ds[1..])
  }

  lemma {:induction false} AllReady(ds: seq<Disk>)
    requires forall k :: 0 <= k < |ds| ==> ds[k].status == DISK_MOUNTED
    ensures ReadyDisks(ds) == AllDisks(ds)
  {
    if ds != [] {
      AllReady(ds[1..]);
    }
  }

  /** The disk at `k` counts as mounted, and each of its partitions, but for EFI partitions of a GPT disk, is
      marked mounted exactly when it was mounted already, or was recognised and could be mounted. */
  predicate Settled(d: Disk, k: nat, o: Oracle) {
    && d.status == DISK_MOUNTED
    && forall j :: 0 <= j < |d.parts| && !(d.isgpt && o(k, j).efi) ==>
         (d.parts[j].mounted <==> o(k, j).already || (o(k, j).known && o(k, j).mounts))
  }

  lemma MountSettles(d: Disk, k: nat, o: Oracle)
    requires DiskOk(d)
    ensures Settled(Mount(Confirm(d, k, o), k, o), k, o)
  {
    hide Confirm, Mount, DiskOk;
    ConfirmOk(d, k, o);
    var c := Confirm(d, k, o);
    MountOk(c, k, o);
    MountParts(c, k, o);
    var m := Mount(c, k, o);
    forall j | 0 <= j < |m.parts| && !(m.isgpt && o(k, j).efi)
      ensures m.parts[j].mounted <==> o(k, j).already || (o(k, j).known && o(k, j).mounts)
    {
      ConfirmKnows(d, k, o, j);
      MountMarks(c, k, o, j);
    }
  }

  /** An add event for a disk succeeds exactly when the disk is registered after it, from before or from the
      partition table, and the disk is then settled. */
  lemma AddSettles(r: Reg, majors: seq<Major>, e: Event)
    requires Inv(r) && e.action == DISK_UDEV_ADD && e.lines.Some?
    ensures var t := Act(r, majors, e);
            var k := FindDisk(t.r.disks, e.dev);
            && (t.code == SUCCESS <==> k < |t.r.disks|)
            && (k < |t.r.disks| ==> Settled(t.r.disks[k], k, e.o))
  {
    hide Scan, Confirm, Mount, DiskOk, Settled;
    ScanInv(r, majors, Only(e.dev), e.lines.lines);
    var s := Scan(r, majors, Only(e.dev), e.lines.lines);
    var k := FindDisk(s.disks, e.dev);
    if k < |s.disks| {
      ConfirmOk(s.disks[k], k, e.o);
      MountOk(Confirm(s.disks[k], k, e.o), k, e.o);
      SameDisk(s.disks, k, Mount(Confirm(s.disks[k], k, e.o), k, e.o));
      MountSettles(s.disks[k], k, e.o);
    }
  }

  /** After disk_init every registered disk is settled, and the LUN reply lists all of them in order. */
  lemma InitSettles(majors: seq<Major>, lines: seq<Line>, o: Oracle)
    ensures var r := Init(majors, lines, o);
            && r.inited && (forall k :: 0 <= k < |r.disks| ==> Settled(r.disks[k], k, o))
            && ReadyDisks(r.disks) == AllDisks(r.disks)
  {
    hide Scan, Confirm, Mount, DiskOk, ReadyDisks, AllDisks;
    var none := Reg([], 0, false);
    ScanInv(none, majors, Any, lines);
    var s := Scan(none, majors, Any, lines);
    var r := Init(majors, lines, o);
    forall k | 0 <= k < |r.disks|
      ensures Settled(r.disks[k], k, o)
    {
      MountSettles(s.disks[k], k, o);
    }
    AllReady(r.disks);
  }

  predicate Registered(ds: seq<Disk>, name: string) {
    FindDisk(ds, name) < |ds|
  }

  predicate Held(ds: seq<Disk>, name: string) {
    exists i :: 0 <= i < |ds| && HasPart(ds[i], name)
  }

  /** What inserting a line promises for its device: a disk is registered, a partition is held by some disk
      if its own is registered or, before the end of disk_init, listed. */
  predicate Entered(ds: seq<Disk>, majors: seq<Major>, l: Line, early: bool) {
    match RoleOf(majors, l)
    case Main => Registered(ds, l.name)
    case Partition(owner) => early && l.ownerListed ==> Registered(ds, owner) && Held(ds, l.name)
    case Alien => true
  }

  lemma {:induction false} RegisteredIff(ds: seq<Disk>, name: string)
    ensures Registered(ds, name) <==> exists i :: 0 <= i < |ds| && ds[i].name == name
  {
  }

  /** Nothing is forgotten: every disk is still there under its name, with every partition it had. */
  predicate Grown(before: seq<Disk>, after: seq<Disk>) {
    && |before| <= |after|
    && forall i :: 0 <= i < |before| ==>
         && after[i].name == before[i].name && |before[i].parts| <= |after[i].parts|
         && forall j :: 0 <= j < |before[i].parts| ==> after[i].parts[j].name == before[i].parts[j].name
  }

  lemma GrownKeeps(before: seq<Disk>, after: seq<Disk>, name: string)
    requires Grown(before, after)
    ensures Registered(before, name) ==> Registered(after, name)
    ensures Held(before, name) ==> Held(after, name)
  {
    RegisteredIff(before, name);
    RegisteredIff(after, name);
    if Held(before, name) {
      var i :| 0 <= i < |before| && HasPart(before[i], name);
      var j :| 0 <= j < |before[i].parts| && before[i].parts[j].name == name;
      assert after[i].parts[j].name == name;
      assert HasPart(after[i], name);
    }
  }

  lemma GrownTwice(a: seq<Disk>, b: seq<Disk>, c: seq<Disk>)
    requires Grown(a, b) && Grown(b, c)
    ensures Grown(a, c)
  {
  }

  lemma InsertGrows(r: Reg, majors: seq<Major>, l: Line)
    ensures Grown(r.disks, Insert(r, majors, l).disks) && Insert(r, majors, l).inited == r.inited
  {
    hide RoleOf, Listed;
  }

  lemma InsertEnters(r: Reg, majors: seq<Major>, l: Line)
    ensures Entered(Insert(r, majors, l).disks, majors, l, !r.inited)
    ensures RoleOf(majors, l).Partition? && Registered(r.disks, RoleOf(majors, l).owner) ==>
              Held(Insert(r, majors, l).disks, l.name)
  {
    hide RoleOf;
    var t := Insert(r, majors, l);
    match RoleOf(majors, l) {
      case Main => RegisteredIff(t.disks, l.name); NewDiskLast(r.disks, NewDisk(l.name, l.major, l.gpt, r.plugs));
      case Alien =>
      case Partition(owner) =>
        var k := FindDisk(r.disks, owner);
        if k < |r.disks| || (!r.inited && l.ownerListed) {
          var ds := if k < |r.disks| then r.disks else r.disks + [NewDisk(owner, l.major, l.ownerGpt, 0)];
          RegisteredIff(t.disks, owner);
          assert ds[k].name == owner;
          if Listed(ds, l.name) {
            assert HasPart(t.disks[FindOwner(ds, l.name)], l.name);
          } else {
            assert t.disks[k].name == owner;
            assert t.disks[k].parts[|ds[k].parts|].name == l.name;
            assert HasPart(t.disks[k], l.name);
          }
        }
    }
  }

  lemma NewDiskLast(ds: seq<Disk>, d: Disk)
    ensures (ds + [d])[|ds|] == d
  {
  }

  lemma {:induction false} ScanGrows(r: Reg, majors: seq<Major>, dev: Dev, lines: seq<Line>)
    ensures Grown(r.disks, Scan(r, majors, dev, lines).disks) && Scan(r, majors, dev, lines).inited == r.inited
    decreases |lines|
  {
    hide Insert, Grown;
    GrownSelf(r.disks);
    if lines != [] {
      InsertGrows(r, majors, lines[0]);
      var skip := lines[0].size == 1 || !Passes(dev, lines[0].name);
      var r1 := if skip then r else Insert(r, majors, lines[0]);
      ScanGrows(r1, majors, dev, lines[1..]);
      GrownTwice(r.disks, r1.disks, Scan(r1, majors, dev, lines[1..]).disks);
    }
  }

  lemma GrownSelf(ds: seq<Disk>)
    ensures Grown(ds, ds)
  {
  }

  /** Every line of the table that is not skipped is entered. */
  lemma {:induction false} ScanEnters(r: Reg, majors: seq<Major>, dev: Dev, lines: seq<Line>, i: nat)
    requires i < |lines| && lines[i].size != 1 && Passes(dev, lines[i].name)
    ensures Entered(Scan(r, majors, dev, lines).disks, majors, lines[i], !r.inited)
    decreases |lines|
  {
    hide Insert, Grown, Entered, RoleOf;
    InsertGrows(r, majors, lines[0]);
    var skip := lines[0].size == 1 || !Passes(dev, lines[0].name);
    var r1 := if skip then r else Insert(r, majors, lines[0]);
    if i == 0 {
      InsertEnters(r, majors, lines[0]);
      ScanGrows(r1, majors, dev, lines[1..]);
      EnteredStays(r1.disks, Scan(r1, majors, dev, lines[1..]).disks, majors, lines[0], !r.inited);
    } else {
      assert lines[i] == lines[1..][i - 1];
      ScanEnters(r1, majors, dev, lines[1..], i - 1);
    }
  }

  lemma EnteredStays(before: seq<Disk>, after: seq<Disk>, majors: seq<Major>, l: Line, early: bool)
    requires Grown(before, after) && Entered(before, majors, l, early)
    ensures Entered(after, majors, l, early)
  {
    hide RoleOf, Grown, Registered, Held;
    GrownKeeps(before, after, l.name);
    if RoleOf(majors, l).Partition? {
      GrownKeeps(before, after, RoleOf(majors, l).owner);
    }
  }

  lemma MountGrows(d: Disk, k: nat, o: Oracle)
    requires DiskOk(d)
    ensures Grown([d], [Mount(Confirm(d, k, o), k, o)])
  {
    var c := Confirm(d, k, o);
    var m := Mount(c, k, o);
    assert forall j :: 0 <= j < |c.parts| ==> m.parts[j] == MountPart(c.parts[j], c.isgpt, o(k, j));
  }

  lemma {:induction false} AllGrow(before: seq<Disk>, after: seq<Disk>)
    requires |before| == |after| && forall k :: 0 <= k < |before| ==> Grown([before[k]], [after[k]])
    ensures Grown(before, after)
  {
    forall k | 0 <= k < |before|
      ensures after[k].name == before[k].name && |before[k].parts| <= |after[k].parts|
      ensures forall j :: 0 <= j < |before[k].parts| ==> after[k].parts[j].name == before[k].parts[j].name
    {
      assert Grown([before[k]], [after[k]]);
      assert [before[k]][0] == before[k] && [after[k]][0] == after[k];
    }
  }

  /** Every disk and every partition of the table that disk_init does not skip is in the registry after it. */
  lemma InitEnters(majors: seq<Major>, lines: seq<Line>, o: Oracle, i: nat)
    requires i < |lines| && lines[i].size != 1
    ensures Entered(Init(majors, lines, o).disks, majors, lines[i], true)
  {
    hide Scan, Confirm, Mount, DiskOk, Grown, Entered, RoleOf;
    var none := Reg([], 0, false);
    ScanInv(none, majors, Any, lines);
    ScanEnters(none, majors, Any, lines, i);
    var s := Scan(none, majors, Any, lines);
    var r := Init(majors, lines, o);
    forall k | 0 <= k < |s.disks|
      ensures Grown([s.disks[k]], [r.disks[k]])
    {
      MountGrows(s.disks[k], k, o);
    }
    AllGrow(s.disks, r.disks);
    EnteredStays(s.disks, r.disks, majors, lines[i], true);
  }

  /** A disk is there for its partition: registered from before, or by a line of the table above it. */
  predicate Before(r: Reg, majors: seq<Major>, dev: Dev, lines: seq<Line>, i: nat, owner: string)
    requires i < |lines|
  {
    Registered(r.disks, owner) ||
    exists h :: 0 <= h < i && RoleOf(majors, lines[h]) == Main && lines[h].name == owner
                && lines[h].size != 1 && Passes(dev, owner)
  }

  /** A partition of the table that is not skipped is held if its disk is there for it. */
  lemma {:induction false} ScanHolds(r: Reg, majors: seq<Major>, dev: Dev, lines: seq<Line>, i: nat, owner: string)
    requires i < |lines| && lines[i].size != 1 && Passes(dev, lines[i].name)
    requires RoleOf(majors, lines[i]) == Partition(owner) && Before(r, majors, dev, lines, i, owner)
    ensures Held(Scan(r, majors, dev, lines).disks, lines[i].name)
    decreases |lines|
  {
    hide Insert, Grown, RoleOf, Registered, Held;
    InsertGrows(r, majors, lines[0]);
    InsertEnters(r, majors, lines[0]);
    var skip := lines[0].size == 1 || !Passes(dev, lines[0].name);
    var r1 := if skip then r else Insert(r, majors, lines[0]);
    if i == 0 {
      ScanGrows(r1, majors, dev, lines[1..]);
      GrownKeeps(r1.disks, Scan(r1, majors, dev, lines[1..]).disks, lines[0].name);
    } else {
      assert lines[i] == lines[1..][i - 1];
      GrownSelf(r.disks);
      GrownKeeps(r.disks, r1.disks, owner);
      if !Registered(r.disks, owner) {
        var h :| 0 <= h < i && RoleOf(majors, lines[h]) == Main && lines[h].name == owner
                 && lines[h].size != 1 && Passes(dev, owner);
        if h > 0 {
          assert lines[1..][h - 1] == lines[h];
        }
      }
      ScanHolds(r1, majors, dev, lines[1..], i - 1, owner);
    }
  }

  /** What an add event names of the table is in the registry after it: the disk itself, and then the event
      succeeds; and each of its partitions whose disk is there for it. */
  lemma AddEnters(r: Reg, majors: seq<Major>, e: Event, i: nat)
    requires Inv(r) && e.action == DISK_UDEV_ADD && e.lines.Some?
    requires i < |e.lines.lines| && e.lines.lines[i].size != 1 && e.dev <= e.lines.lines[i].name
    ensures var t, l := Act(r, majors, e), e.lines.lines[i];
            && (RoleOf(majors, l) == Main && l.name == e.dev ==> t.code == SUCCESS && Registered(t.r.disks, e.dev))
            && (RoleOf(majors, l).Partition? && Before(r, majors, Only(e.dev), e.lines.lines, i, RoleOf(majors, l).owner) ==>
                  Held(t.r.disks, l.name))
  {
    hide Scan, Confirm, Mount, DiskOk, Grown, Entered, RoleOf, Held, Before, Registered;
    var dev, lines := Only(e.dev), e.lines.lines;
    var l := lines[i];
    ScanInv(r, majors, dev, lines);
    ScanEnters(r, majors, dev, lines, i);
    var s := Scan(r, majors, dev, lines);
    var k := FindDisk(s.disks, e.dev);
    var t := Act(r, majors, e).r;
    GrownSelf(s.disks);
    if k < |s.disks| {
      MountGrows(s.disks[k], k, e.o);
      OneGrows(s.disks, k, Mount(Confirm(s.disks[k], k, e.o), k, e.o));
    }
    GrownKeeps(s.disks, t.disks, l.name);
    MainEntered(s.disks, majors, l, !r.inited);
    if RoleOf(majors, l).Partition? && Before(r, majors, dev, lines, i, RoleOf(majors, l).owner) {
      ScanHolds(r, majors, dev, lines, i, RoleOf(majors, l).owner);
    }
  }

  lemma MainEntered(ds: seq<Disk>, majors: seq<Major>, l: Line, early: bool)
    requires Entered(ds, majors, l, early)
    ensures RoleOf(majors, l) == Main ==> FindDisk(ds, l.name) < |ds| && Registered(ds, l.name)
  {
    hide RoleOf;
  }

  lemma OneGrows(ds: seq<Disk>, k: nat, d: Disk)
    requires k < |ds| && Grown([ds[k]], [d])
    ensures Grown(ds, ds[k := d])
  {
    assert [ds[k]][0] == ds[k] && [d][0] == d;
  }

  // ----- And nothing else

  /** A line that makes a scan register a disk of this name: the disk's own, or, before the end of
      disk_init, that of a partition whose disk is listed. */
  predicate Brings(majors: seq<Major>, l: Line, name: string, early: bool) {
    match RoleOf(majors, l)
    case Main => l.name == name
    case Partition(owner) => early && l.ownerListed && owner == name
    case Alien => false
  }

  predicate Brought(majors: seq<Major>, dev: Dev, lines: seq<Line>, name: string, early: bool) {
    exists i :: 0 <= i < |lines| && lines[i].size != 1 && Passes(dev, lines[i].name) && Brings(majors, lines[i], name, early)
  }

  lemma BroughtCons(majors: seq<Major>, dev: Dev, lines: seq<Line>, name: string, early: bool)
    requires lines != []
    ensures Brought(majors, dev, lines, name, early) <==>
            (lines[0].size != 1 && Passes(dev, lines[0].name) && Brings(majors, lines[0], name, early))
            || Brought(majors, dev, lines[1..], name, early)
  {
    hide Brings, Passes;
    assert forall i :: 1 <= i < |lines| ==> lines[i] == lines[1..][i - 1];
    if Brought(majors, dev, lines[1..], name, early) {
      var i :| 0 <= i < |lines[1..]| && lines[1..][i].size != 1 && Passes(dev, lines[1..][i].name)
               && Brings(majors, lines[1..][i], name, early);
      assert lines[i + 1] == lines[1..][i];
    }
  }

  lemma SameNames(a: seq<Disk>, b: seq<Disk>, name: string)
    requires |a| == |b| && forall k :: 0 <= k < |a| ==> a[k].name == b[k].name
    ensures Registered(a, name) <==> Registered(b, name)
  {
    RegisteredIff(a, name);
    RegisteredIff(b, name);
    hide Registered;
    if Registered(a, name) {
      var k :| 0 <= k < |a| && a[k].name == name;
      assert b[k].name == name;
    }
    if Registered(b, name) {
      var k :| 0 <= k < |b| && b[k].name == name;
      assert a[k].name == name;
    }
  }

  lemma RegisteredLast(ds: seq<Disk>, d: Disk, name: string)
    ensures Registered(ds + [d], name) <==> Registered(ds, name) || d.name == name
  {
    RegisteredIff(ds, name);
    RegisteredIff(ds + [d], name);
    assert (ds + [d])[|ds|] == d;
    assert forall i :: 0 <= i < |ds| ==> (ds + [d])[i] == ds[i];
  }

  lemma InsertRegisters(r: Reg, majors: seq<Major>, l: Line, name: string)
    ensures Registered(Insert(r, majors, l).disks, name) <==> Registered(r.disks, name) || Brings(majors, l, name, !r.inited)
  {
    hide RoleOf, Listed;
    var t := Insert(r, majors, l);
    match RoleOf(majors, l) {
      case Main => RegisteredLast(r.disks, NewDisk(l.name, l.major, l.gpt, r.plugs), name);
      case Partition(owner) =>
        var k := FindDisk(r.disks, owner);
        var added := NewDisk(owner, l.major, l.ownerGpt, 0);
        RegisteredLast(r.disks, added, name);
        if k < |r.disks| {
          SameNames(r.disks, t.disks, name);
        } else if !r.inited && l.ownerListed {
          SameNames(r.disks + [added], t.disks, name);
        }
      case Alien =>
    }
  }

  lemma {:induction false} ScanRegisters(r: Reg, majors: seq<Major>, dev: Dev, lines: seq<Line>, name: string)
    ensures Registered(Scan(r, majors, dev, lines).disks, name) <==>
            Registered(r.disks, name) || Brought(majors, dev, lines, name, !r.inited)
    decreases |lines|
  {
    hide Insert, Registered, Brings;
    if lines != [] {
      InsertRegisters(r, majors, lines[0], name);
      InsertGrows(r, majors, lines[0]);
      BroughtCons(majors, dev, lines, name, !r.inited);
      var skip := lines[0].size == 1 || !Passes(dev, lines[0].name);
      ScanRegisters(if skip then r else Insert(r, majors, lines[0]), majors, dev, lines[1..], name);
    }
  }

  /** After disk_init exactly those disks are registered that the table lists, or lists a partition of. */
  lemma InitRegisters(majors: seq<Major>, lines: seq<Line>, o: Oracle, name: string)
    ensures Registered(Init(majors, lines, o).disks, name) <==> Brought(majors, Any, lines, name, true)
  {
    hide Scan, Confirm, Mount, DiskOk, Registered, Brought;
    var none := Reg([], 0, false);
    ScanInv(none, majors, Any, lines);
    ScanRegisters(none, majors, Any, lines, name);
    RegisteredIff([], name);
    var s := Scan(none, majors, Any, lines);
    var r := Init(majors, lines, o);
    forall k | 0 <= k < |s.disks|
      ensures s.disks[k].name == r.disks[k].name
    {
      ConfirmOk(s.disks[k], k, o);
      MountOk(Confirm(s.disks[k], k, o), k, o);
    }
    SameNames(s.disks, r.disks, name);
  }

  /** After an add event, when disk_init is over, exactly the disks from before it and those that the table
      itself lists under a name that the event's is a prefix of. */
  lemma AddRegisters(r: Reg, majors: seq<Major>, e: Event, name: string)
    requires Inv(r) && e.action == DISK_UDEV_ADD && e.lines.Some?
    ensures Registered(Act(r, majors, e).r.disks, name) <==>
            Registered(r.disks, name) || Brought(majors, Only(e.dev), e.lines.lines, name, !r.inited)
  {
    hide Scan, Confirm, Mount, DiskOk, Registered, Brought;
    ScanInv(r, majors, Only(e.dev), e.lines.lines);
    ScanRegisters(r, majors, Only(e.dev), e.lines.lines, name);
    var s := Scan(r, majors, Only(e.dev), e.lines.lines);
    var k := FindDisk(s.disks, e.dev);
    if k < |s.disks| {
      ConfirmOk(s.disks[k], k, e.o);
      MountOk(Confirm(s.disks[k], k, e.o), k, e.o);
      SameNames(s.disks, s.disks[k := Mount(Confirm(s.disks[k], k, e.o), k, e.o)], name);
    }
  }

  predicate PartLine(majors: seq<Major>, l: Line, name: string) {
    l.size != 1 && RoleOf(majors, l).Partition? && l.name == name
  }

  predicate PartListed(majors: seq<Major>, lines: seq<Line>, name: string) {
    exists i :: 0 <= i < |lines| && PartLine(majors, lines[i], name)
  }

  lemma InsertHoldsOnly(r: Reg, majors: seq<Major>, l: Line, name: string)
    requires Held(Insert(r, majors, l).disks, name)
    ensures Held(r.disks, name) || (RoleOf(majors, l).Partition? && l.name == name)
  {
    hide RoleOf, Listed, FindDisk;
    var t := Insert(r, majors, l).disks;
    var i :| 0 <= i < |t| && HasPart(t[i], name);
    var j :| 0 <= j < |t[i].parts| && t[i].parts[j].name == name;
    if i < |r.disks| && j < |r.disks[i].parts| {
      assert r.disks[i].parts[j].name == name;
      assert HasPart(r.disks[i], name);
    }
  }

  lemma {:induction false} ScanHoldsOnly(r: Reg, majors: seq<Major>, dev: Dev, lines: seq<Line>, name: string)
    requires Held(Scan(r, majors, dev, lines).disks, name)
    ensures Held(r.disks, name) || PartListed(majors, lines, name)
    decreases |lines|
  {
    hide Insert, Held, RoleOf, Passes;
    if lines != [] {
      var skip := lines[0].size == 1 || !Passes(dev, lines[0].name);
      var r1 := if skip then r else Insert(r, majors, lines[0]);
      ScanHoldsOnly(r1, majors, dev, lines[1..], name);
      if Held(r1.disks, name) {
        if !skip {
          InsertHoldsOnly(r, majors, lines[0], name);
        }
      } else {
        var i :| 0 <= i < |lines[1..]| && PartLine(majors, lines[1..][i], name);
        assert lines[i + 1] == lines[1..][i];
      }
    }
  }

  lemma PartNames(d: Disk, k: nat, o: Oracle, j: nat)
    requires DiskOk(d) && j < |Mount(Confirm(d, k, o), k, o).parts|
    ensures var m := Mount(Confirm(d, k, o), k, o);
            && m.name == d.name
            && (if d.parts == [] then |m.parts| == 1 && m.parts[0].name == d.name
                else j < |d.parts| && m.parts[j].name == d.parts[j].name)
  {
    var c := Confirm(d, k, o);
    assert |c.parts| == |Mount(c, k, o).parts|;
    assert Mount(c, k, o).parts[j] == MountPart(c.parts[j], c.isgpt, o(k, j));
  }

  /** After disk_init a disk holds only partitions that the table lists, or itself as its one partition. */
  lemma InitHoldsOnly(majors: seq<Major>, lines: seq<Line>, o: Oracle, k: nat, j: nat)
    requires var ds := Init(majors, lines, o).disks; k < |ds| && j < |ds[k].parts|
    ensures var d := Init(majors, lines, o).disks[k];
            PartListed(majors, lines, d.parts[j].name) || (|d.parts| == 1 && d.parts[0].name == d.name)
  {
    hide Scan, RoleOf, PartListed, Confirm, Mount, DiskOk;
    var none := Reg([], 0, false);
    ScanInv(none, majors, Any, lines);
    var s := Scan(none, majors, Any, lines);
    var d := s.disks[k];
    PartNames(d, k, o, j);
    if d.parts != [] {
      var name := d.parts[j].name;
      assert HasPart(d, name) && Held(s.disks, name);
      ScanHoldsOnly(none, majors, Any, lines, name);
    }
  }

  // ----- Names of partitions of SD cards

  predicate AllDigits(s: string) {
    forall i :: 0 <= i < |s| ==> IsDigit(s[i])
  }

  /** A decimal number as the kernel prints it. */
  predicate Numeral(s: string) {
    s != "" && AllDigits(s) && (s[0] == '0' ==> |s| == 1)
  }

  lemma {:induction false} NonDigitsIs(head: string, tail: string)
    requires (forall i :: 0 <= i < |head| ==> !IsDigit(head[i])) && tail != "" && IsDigit(tail[0])
    ensures NonDigits(head + tail) == head
  {
    if head == "" {
      assert head + tail == tail;
    } else {
      assert (head + tail)[1..] == head[1..] + tail;
      NonDigitsIs(head[1..], tail);
    }
  }

  lemma {:induction false} AtoiStops(digits: string, rest: string, acc: nat)
    requires AllDigits(digits) && (rest == "" || !IsDigit(rest[0]))
    ensures Atoi(digits + rest, acc) == Atoi(digits, acc)
    decreases |digits|
  {
    if digits == "" {
      assert digits + rest == rest;
    } else {
      assert (digits + rest)[1..] == digits[1..] + rest;
      AtoiStops(digits[1..], rest, 10 * acc + (digits[0] as int - '0' as int));
    }
  }

  lemma {:induction false} AtoiLast(digits: string, c: char, acc: nat)
    requires AllDigits(digits) && IsDigit(c)
    ensures Atoi(digits + [c], acc) == 10 * Atoi(digits, acc) + (c as int - '0' as int)
    ensures Atoi(digits, acc) >= acc
    decreases |digits|
  {
    if digits == "" {
      assert digits + [c] == [c];
    } else {
      assert (digits + [c])[1..] == digits[1..] + [c];
      AtoiLast(digits[1..], c, 10 * acc + (digits[0] as int - '0' as int));
    }
  }

  /** Reading a numeral and printing it gives it back. */
  lemma {:induction false} DecimalOfAtoi(s: string)
    requires Numeral(s)
    ensures Decimal(Atoi(s, 0)) == s && (s[0] != '0' ==> Atoi(s, 0) > 0)
    decreases |s|
  {
    var front, c := s[..|s| - 1], s[|s| - 1];
    assert s == front + [c];
    AtoiLast(front, c, 0);
    if front == "" {
      assert Atoi(front, 0) == 0;
    } else {
      DecimalOfAtoi(front);
    }
  }

  /** A partition of an SD card, such as mmcblk0p1, belongs to the disk named by the letters at its start
      and the number behind them. */
  lemma MmcOwner(majors: seq<Major>, l: Line, letters: string, number: string, rest: string)
    requires var m := FindMajor(majors, l.major); m < |majors| && majors[m].mmc && l.major != 8
    requires l.minor % MMCBLK_MAX_PART != 0
    requires (forall i :: 0 <= i < |letters| ==> !IsDigit(letters[i])) && Numeral(number)
    requires l.name == letters + number + rest && (rest == "" || !IsDigit(rest[0]))
    ensures RoleOf(majors, l) == Partition(letters + number)
  {
    hide Decimal, Atoi, FindMajor;
    assert l.name == letters + (number + rest) && l.name[|letters|..] == number + rest;
    NonDigitsIs(letters, number + rest);
    AtoiStops(number, rest, 0);
    DecimalOfAtoi(number);
  }

  // ----- What changes nothing

  /** Nothing but an add event touches anything for a device that is not registered, and a wakeup only a
      disk that was removed safely. */
  lemma NothingToDo(r: Reg, majors: seq<Major>, e: Event)
    requires Inv(r) && e.action != DISK_UDEV_ADD
    requires var k := FindDisk(r.disks, e.dev);
             k == |r.disks| || (e.action == DISK_WAKEUP && r.disks[k].status != DISK_SFREMOVE)
    ensures Act(r, majors, e) == Done(r, NOTHING)
  {
    hide DiskOk;
    var i := FindTarget(r.disks, e.dev, e.major);
    if i < |r.disks| {
      RegisteredIff(r.disks, e.dev);
    }
  }
}
