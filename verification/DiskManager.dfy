/** diskm/disk_manager.c in its own form: list loops that change the registry's records one at a time,
    proved against the functions of Registry.dfy. */
module DiskManager {
  import opened Registry

  /** sizeof(struct operation_diskLun) and sizeof(struct diskPlugNode). */
  const LUN_HEAD: int := 2
  const LUN_NODE: int := 18

  lemma ReadyTurn(ds: seq<Disk>, i: nat)
    requires i < |ds|
    ensures ReadyDisks(ds[i..]) == Ready(ds[i]) + ReadyDisks(ds[i + 1..])
  {
    hide ReadyDisks;
    assert ds[i..] == [ds[i]] + ds[i + 1..];
    ReadyCons(ds[i], ds[i + 1..]);
  }

  /** How many nodes fit: `n` of them leave room for none more, or are all there are. */
  lemma Fit(size: int, n: nat, all: nat)
    requires size - LUN_HEAD - LUN_NODE * n >= 0 && n <= all
    requires n < all ==> size - LUN_HEAD - LUN_NODE * n < LUN_NODE
    ensures n == if all <= (size - LUN_HEAD) / LUN_NODE then all else (size - LUN_HEAD) / LUN_NODE
  {
  }

  lemma MapTurn(ds: seq<Disk>, i: nat, f: (Disk, nat) -> Disk)
    requires i < |ds|
    ensures MapFrom(ds, i, f) == MapFrom(ds[i := f(ds[i], i)], i + 1, f)
  {
  }

  lemma MapEnds(ds: seq<Disk>, f: (Disk, nat) -> Disk)
    ensures MapFrom(ds, |ds|, f) == ds
  {
  }

  class Manager {
    var disks: seq<Disk>
    var plugcount: nat
    var inited: bool
    const majors: seq<Major>

    function Snap(): Reg
      reads this
    {
      Reg(disks, plugcount, inited)
    }

    constructor (majors: seq<Major>)
      ensures Snap() == Reg([], 0, false) && this.majors == majors
    {
      disks, plugcount, inited := [], 0, false;
      this.majors := majors;
    }

    /** disk_search_partition_list for a disk. */
    method SearchDisk(name: string) returns (k: nat)
      ensures k == FindDisk(disks, name)
    {
      k := 0;
      while k < |disks| && disks[k].name != name
        invariant 0 <= k <= |disks| && k + FindDisk(disks[k..], name) == FindDisk(disks, name)
      {
        assert disks[k..][1..] == disks[k + 1..];
        k := k + 1;
      }
    }

    /** disk_search_partition_list for a partition. */
    method SearchPartition(name: string) returns (found: bool)
      ensures found == Listed(disks, name)
    {
      var k := 0;
      while k < |disks|
        invariant 0 <= k <= |disks| && k + FindOwner(disks[k..], name) == FindOwner(disks, name)
      {
        if disks[k].name <= name {
          var j := 0;
          while j < |disks[k].parts|
            invariant 0 <= j <= |disks[k].parts|
            invariant forall i :: 0 <= i < j ==> disks[k].parts[i].name != name
          {
            if disks[k].parts[j].name == name {
              return true;
            }
            j := j + 1;
          }
          return false;
        }
        assert disks[k..][1..] == disks[k + 1..];
        k := k + 1;
      }
      return false;
    }

    /** disk_insert_partition_list. */
    method InsertPartition(l: Line)
      modifies this
      ensures Snap() == Insert(old(Snap()), majors, l)
    {
      hide RoleOf, Listed;
      var role := RoleOf(majors, l);
      if role.Alien? {
        return;
      }
      if role.Main? {
        var k := SearchDisk(l.name);
        if k == |disks| {
          disks := disks + [NewDisk(l.name, l.major, l.gpt, plugcount)];
          plugcount := plugcount + 1;
        }
        return;
      }
      var k := SearchDisk(role.owner);
      if k == |disks| {
        if inited || !l.ownerListed {
          return;
        }
        disks := disks + [NewDisk(role.owner, l.major, l.ownerGpt, 0)];
      }
      var found := SearchPartition(l.name);
      if !found {
        disks := disks[k := WithPart(disks[k], Part(l.name, false, false))];
      }
    }

    /** disk_mnt1_loop_partition. */
    method LoopPartitions(dev: Dev, lines: seq<Line>)
      modifies this
      ensures Snap() == Scan(old(Snap()), majors, dev, lines)
    {
      hide Insert;
      var i := 0;
      while i < |lines|
        invariant 0 <= i <= |lines|
        invariant Scan(Snap(), majors, dev, lines[i..]) == Scan(old(Snap()), majors, dev, lines)
      {
        assert lines[i..][1..] == lines[i + 1..];
        if lines[i].size != 1 && Passes(dev, lines[i].name) {
          InsertPartition(lines[i]);
        }
        i := i + 1;
      }
    }

    /** disk_mnt2_confirm_partition_info. */
    method ConfirmPartitions(dev: Dev, o: Oracle) returns (code: int)
      modifies this
      ensures plugcount == old(plugcount) && inited == old(inited)
      ensures dev.Any? ==> code == SUCCESS && disks == MapFrom(old(disks), 0, (d: Disk, i: nat) => Confirm(d, i, o))
      ensures dev.Only? ==>
                var k := FindDisk(old(disks), dev.name);
                && code == (if k < |old(disks)| then SUCCESS else NOTHING)
                && disks == if k < |old(disks)| then old(disks)[k := Confirm(old(disks)[k], k, o)] else old(disks)
    {
      hide Confirm, MapFrom, FindDisk;
      ghost var f := (d: Disk, i: nat) => Confirm(d, i, o);
      var i := 0;
      while i < |disks|
        invariant 0 <= i <= |disks| == |old(disks)| && plugcount == old(plugcount) && inited == old(inited)
        invariant dev.Any? ==> MapFrom(disks, i, f) == MapFrom(old(disks), 0, f)
        invariant dev.Only? ==> disks == old(disks) && forall j :: 0 <= j < i ==> disks[j].name != dev.name
      {
        if dev.Any? || disks[i].name == dev.name {
          var d := ConfirmDisk(disks[i], i, o);
          if dev.Only? {
            OnlyOne(disks, dev.name, i);
          }
          MapTurn(disks, i, f);
          disks := disks[i := d];
          if dev.Only? {
            return SUCCESS;
          }
        }
        i := i + 1;
      }
      MapEnds(disks, f);
      if dev.Only? {
        NoneFound(disks, dev.name);
        return NOTHING;
      }
      return SUCCESS;
    }

    /** disk_mnt3_automount_partition. */
    method Automount(dev: Dev, o: Oracle) returns (code: int)
      modifies this
      ensures plugcount == old(plugcount) && inited == old(inited)
      ensures dev.Any? ==> code == NOTHING && disks == MapFrom(old(disks), 0, (d: Disk, i: nat) => Mount(d, i, o))
      ensures dev.Only? ==>
                var k := FindDisk(old(disks), dev.name);
                && code == (if k < |old(disks)| then SUCCESS else NOTHING)
                && disks == if k < |old(disks)| then old(disks)[k := Mount(old(disks)[k], k, o)] else old(disks)
    {
      hide Mount, MapFrom, FindDisk;
      ghost var f := (d: Disk, i: nat) => Mount(d, i, o);
      var i := 0;
      while i < |disks|
        invariant 0 <= i <= |disks| == |old(disks)| && plugcount == old(plugcount) && inited == old(inited)
        invariant dev.Any? ==> MapFrom(disks, i, f) == MapFrom(old(disks), 0, f)
        invariant dev.Only? ==> disks == old(disks) && forall j :: 0 <= j < i ==> disks[j].name != dev.name
      {
        if dev.Any? || disks[i].name == dev.name {
          var d := MountDisk(disks[i], i, o);
          if dev.Only? {
            OnlyOne(disks, dev.name, i);
          }
          MapTurn(disks, i, f);
          disks := disks[i := d];
          if dev.Only? {
            return SUCCESS;
          }
        }
        i := i + 1;
      }
      MapEnds(disks, f);
      if dev.Only? {
        NoneFound(disks, dev.name);
      }
      return NOTHING;
    }

    /** disk_mount_process. */
    method Process(dev: Dev, lines: Lines, o: Oracle) returns (code: int)
      modifies this
      ensures var r := MountProcess(old(Snap()), majors, dev, lines, o); Snap() == r.r && code == r.code
    {
      hide Scan, Confirm, Mount;
      if lines.None? {
        return FAILURE;
      }
      LoopPartitions(dev, lines.lines);
      ghost var ds := disks;
      code := ConfirmPartitions(dev, o);
      if code != SUCCESS {
        return;
      }
      if dev.Only? {
        ConfirmKeepsName(ds[FindDisk(ds, dev.name)], FindDisk(ds, dev.name), o);
        SameFind(ds, dev.name, Confirm(ds[FindDisk(ds, dev.name)], FindDisk(ds, dev.name), o));
      }
      code := Automount(dev, o);
    }

    /** udev_action_func_wakeup. */
    method WakeupDisk(dev: string, major: int, o: Oracle) returns (code: int)
      modifies this
      ensures var r := Wakeup(old(Snap()), dev, major, o); Snap() == r.r && code == r.code
    {
      var k := 0;
      while k < |disks| && !(disks[k].name == dev && (major == ANY_MAJOR || disks[k].major == major))
        invariant 0 <= k <= |disks| && k + FindTarget(disks[k..], dev, major) == FindTarget(disks, dev, major)
      {
        assert disks[k..][1..] == disks[k + 1..];
        k := k + 1;
      }
      if k == |disks| || disks[k].status != DISK_SFREMOVE {
        return NOTHING;
      }
      ghost var goal := WakeFrom(disks[k].parts, 0, k, o);
      var parts := disks[k].parts;
      var j := 0;
      while j < |parts|
        invariant 0 <= j <= |parts| && WakeFrom(parts, j, k, o) == goal
      {
        if o(k, j).already {
          disks := disks[k := disks[k].(parts := parts, status := DISK_MOUNTED)];
          return NOTHING;
        }
        parts := parts[j := parts[j].(mounted := o(k, j).mounts)];
        j := j + 1;
      }
      disks := disks[k := disks[k].(parts := parts, status := DISK_MOUNTED)];
      return SUCCESS;
    }

    /** udev_action_func_remove. */
    method RemoveDisk(dev: string, major: int, action: int) returns (code: int)
      modifies this
      ensures var r := Remove(old(Snap()), dev, major, action); Snap() == r.r && code == r.code
    {
      var k := SearchDisk(dev);
      if k == |disks| || major != ANY_MAJOR {
        return NOTHING;
      }
      if disks[k].status == action {
        return SUCCESS;
      }
      var parts := disks[k].parts;
      if action == DISK_SFREMOVE {
        var j := 0;
        while j < |parts|
          invariant 0 <= j <= |parts| == |disks[k].parts|
          invariant forall i :: 0 <= i < |parts| ==>
                      parts[i] == if i < j then disks[k].parts[i].(mounted := false) else disks[k].parts[i]
        {
          parts := parts[j := parts[j].(mounted := false)];
          j := j + 1;
        }
        assert parts == Unmounted(disks[k].parts);
        disks := disks[k := disks[k].(parts := parts, status := DISK_SFREMOVE)];
      } else if action == DISK_UDEV_REMOVE {
        disks := disks[..k] + disks[k + 1..];
      }
      return SUCCESS;
    }

    /** disk_getdisk_lun into a buffer of `size` bytes: the mounted disks in order, as many as fit. */
    method GetDiskLun(size: int) returns (code: int, nodes: seq<(string, nat)>, used: int)
      ensures size < LUN_HEAD ==> code == FAILURE
      ensures size >= LUN_HEAD ==>
                var ready := ReadyDisks(disks);
                var fit := (size - LUN_HEAD) / LUN_NODE;
                && code == SUCCESS && used == LUN_HEAD + LUN_NODE * |nodes|
                && nodes == if |ready| <= fit then ready else ready[..fit]
    {
      hide ReadyDisks;
      nodes, used := [], 0;
      if size < LUN_HEAD {
        return FAILURE, [], 0;
      }
      var totalSize := size - LUN_HEAD;
      ghost var ready := ReadyDisks(disks);
      var i := 0;
      assert disks[0..] == disks;
      while i < |disks|
        invariant 0 <= i <= |disks| && totalSize == size - LUN_HEAD - LUN_NODE * |nodes| && totalSize >= 0
        invariant nodes + ReadyDisks(disks[i..]) == ready
      {
        var d := disks[i];
        ReadyTurn(disks, i);
        if d.status == DISK_MOUNTED {
          if totalSize < LUN_NODE {
            Fit(size, |nodes|, |ready|);
            return SUCCESS, nodes, size - totalSize;
          }
          nodes := nodes + [(d.name, d.plugcount)];
          totalSize := totalSize - LUN_NODE;
        }
        i := i + 1;
      }
      ReadyNone();
      assert disks[i..] == [] && nodes + [] == nodes;
      Fit(size, |nodes|, |ready|);
      return SUCCESS, nodes, size - totalSize;
    }

    /** udev_action_func: the invariant of the registry outlives every call. */
    method ActionFunc(e: Event) returns (code: int)
      requires Inv(Snap())
      modifies this
      ensures Inv(Snap())
      ensures var r := Act(old(Snap()), majors, e); Snap() == r.r && code == r.code
    {
      hide Inv, MountProcess, Wakeup, Remove;
      ActInv(Snap(), majors, e);
      if e.action == DISK_UDEV_ADD {
        code := Process(Only(e.dev), e.lines, e.o);
      } else if e.action == DISK_WAKEUP {
        code := WakeupDisk(e.dev, e.major, e.o);
      } else {
        code := RemoveDisk(e.dev, e.major, e.action);
      }
    }
  }

  lemma {:induction false} OnlyOne(ds: seq<Disk>, name: string, i: nat)
    requires i < |ds| && ds[i].name == name && forall j :: 0 <= j < i ==> ds[j].name != name
    ensures FindDisk(ds, name) == i
  {
  }

  lemma NoneFound(ds: seq<Disk>, name: string)
    requires forall j :: 0 <= j < |ds| ==> ds[j].name != name
    ensures FindDisk(ds, name) == |ds|
  {
  }

  lemma ConfirmKeepsName(d: Disk, i: nat, o: Oracle)
    ensures Confirm(d, i, o).name == d.name
  {
  }

  lemma SameFind(ds: seq<Disk>, name: string, d: Disk)
    requires FindDisk(ds, name) < |ds| && d.name == name
    ensures FindDisk(ds[FindDisk(ds, name) := d], name) == FindDisk(ds, name)
  {
    OnlyOne(ds[FindDisk(ds, name) := d], name, FindDisk(ds, name));
  }

  /** The partition loop of disk_mnt2_confirm_partition_info. */
  method ConfirmDisk(d: Disk, i: nat, o: Oracle) returns (r: Disk)
    ensures r == Confirm(d, i, o)
  {
    if d.partnum == 0 {
      return d.(parts := d.parts + [Part(d.name, false, o(i, 0).known)], partnum := 1);
    }
    var parts := d.parts;
    var j := 0;
    while j < |parts|
      invariant 0 <= j <= |parts| == |d.parts|
      invariant forall k :: 0 <= k < |parts| ==>
                  parts[k] == if k < j then d.parts[k].(known := o(i, k).known) else d.parts[k]
    {
      parts := parts[j := parts[j].(known := o(i, j).known)];
      j := j + 1;
    }
    assert parts == Confirm(d, i, o).parts;
    r := d.(parts := parts);
  }

  /** The partition loop of disk_mnt3_automount_partition. */
  method MountDisk(d: Disk, i: nat, o: Oracle) returns (r: Disk)
    ensures r == Mount(d, i, o)
  {
    var parts := d.parts;
    var j := 0;
    while j < |parts|
      invariant 0 <= j <= |parts| == |d.parts|
      invariant forall k :: 0 <= k < |parts| ==>
                  parts[k] == if k < j then MountPart(d.parts[k], d.isgpt, o(i, k)) else d.parts[k]
    {
      var p, t := parts[j], o(i, j);
      if d.isgpt && t.efi {
        j := j + 1;
        continue;
      }
      if t.already {
        p := p.(mounted := true);
      } else if !p.known {
        p := p.(mounted := false);
      } else {
        p := p.(mounted := t.mounts);
      }
      parts := parts[j := p];
      j := j + 1;
    }
    assert parts == Mount(d, i, o).parts;
    r := d.(parts := parts, status := DISK_MOUNTED);
  }
}
