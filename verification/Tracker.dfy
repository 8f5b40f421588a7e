/** The persistent set of deployed MACs: an in-memory map, saved whole after every change. */
module Tracker {
  import opened Wrappers
  import opened MacText

  datatype Record = Record(uuid: string, deployedAt: int, imageHash: string)

  type Deployed = map<string, Record>

  /** What a read of the state file finds. */
  datatype Content = Absent | Garbled | Holds(deployed: Deployed)

  datatype Error = SaveFailed | ReadFailed | ParseFailed

  /** `MarkDeployed` on the map, MAC by MAC; empty canonical forms are skipped. */
  function Mark(d: Deployed, macs: seq<string>, rec: Record): Deployed {
    if macs == [] then d
    else
      var before := Mark(d, macs[..|macs| - 1], rec);
      var c := Canon(macs[|macs| - 1]);
      if c == "" then before else before[c := rec]
  }

  function CanonSet(macs: seq<string>): set<string> {
    set m | m in macs && Canon(m) != "" :: Canon(m)
  }

  /** Exactly the canonical forms of the given MACs are recorded, all with one record; the rest is untouched. */
  lemma {:induction false} MarkRecords(d: Deployed, macs: seq<string>, rec: Record)
    ensures Mark(d, macs, rec).Keys == d.Keys + CanonSet(macs)
    ensures forall k | k in Mark(d, macs, rec) :: Mark(d, macs, rec)[k] == if k in CanonSet(macs) then rec else d[k]
  {
    if macs != [] {
      var n := |macs| - 1;
      var before, last := macs[..n], macs[n];
      MarkRecords(d, before, rec);
      CanonSetMore(macs, before, last);
    }
  }

  lemma CanonSetMore(macs: seq<string>, before: seq<string>, last: string)
    requires macs == before + [last]
    ensures CanonSet(macs) == CanonSet(before) + if Canon(last) == "" then {} else {Canon(last)}
  {
    forall m ensures m in macs <==> m in before || m == last {
    }
  }

  /** The text is the canonical form of a MAC of the list, and not empty. */
  predicate Lists(macs: seq<string>, k: string) {
    k != "" && exists i :: 0 <= i < |macs| && Canon(macs[i]) == k
  }

  lemma MarkedLists(d: Deployed, macs: seq<string>, rec: Record)
    ensures forall k :: k in Mark(d, macs, rec) <==> k in d || Lists(macs, k)
    ensures forall k | k in Mark(d, macs, rec) :: Mark(d, macs, rec)[k] == if Lists(macs, k) then rec else d[k]
  {
    MarkRecords(d, macs, rec);
    forall k ensures k in CanonSet(macs) <==> Lists(macs, k) {
      if k in CanonSet(macs) {
        var m :| m in macs && Canon(m) == k;
        var i :| 0 <= i < |macs| && macs[i] == m;
      }
    }
  }

  class Disk {
    var content: Content

    constructor (content: Content)
      ensures this.content == content
    {
      this.content := content;
    }
  }

  class Tracker {
    const disk: Disk
    var deployed: Deployed

    /** `New` before it loads. */
    constructor (disk: Disk)
      ensures this.disk == disk && deployed == map[]
    {
      this.disk := disk;
      this.deployed := map[];
    }

    /** `load`. */
    method Load(readable: bool) returns (err: Option<Error>)
      modifies this`deployed
      ensures err == if disk.content == Absent then None
                     else if !readable then Some(ReadFailed)
                     else if disk.content == Garbled then Some(ParseFailed) else None
      ensures deployed == if err.None? && disk.content.Holds? then disk.content.deployed else old(deployed)
    {
      if disk.content == Absent {
        return None;
      }
      if !readable {
        return Some(ReadFailed);
      }
      match disk.content {
        case Holds(d) =>
          deployed := d;
          return None;
        case _ => return Some(ParseFailed);
      }
    }

    /** `save`: the rename replaces the file in one step or not at all. */
    method Save(diskOk: bool) returns (err: Option<Error>)
      modifies disk
      ensures err == if diskOk then None else Some(SaveFailed)
      ensures disk.content == if diskOk then Holds(deployed) else old(disk.content)
    {
      if !diskOk {
        return Some(SaveFailed);
      }
      disk.content := Holds(deployed);
      return None;
    }

    method IsDeployed(mac: string) returns (ok: bool)
      ensures ok <==> Canon(mac) in deployed
    {
      return Canon(mac) in deployed;
    }

    method MarkDeployed(macs: seq<string>, uuid: string, imageHash: string, now: int, diskOk: bool) returns (err: Option<Error>)
      modifies this`deployed, disk
      ensures deployed == Mark(old(deployed), macs, Record(uuid, now, imageHash))
      ensures forall k :: k in deployed <==> k in old(deployed) || Lists(macs, k)
      ensures forall k | k in deployed ::
                deployed[k] == if Lists(macs, k) then Record(uuid, now, imageHash) else old(deployed)[k]
      ensures err == if diskOk then None else Some(SaveFailed)
      ensures disk.content == if diskOk then Holds(deployed) else old(disk.content)
    {
      var rec := Record(uuid, now, imageHash);
      for i := 0 to |macs|
        invariant deployed == Mark(old(deployed), macs[..i], rec)
        invariant disk.content == old(disk.content)
      {
        assert macs[..i + 1][..i] == macs[..i];
        var c := Canon(macs[i]);
        if c == "" {
          continue;
        }
        deployed := deployed[c := rec];
      }
      assert macs[..|macs|] == macs;
      MarkedLists(old(deployed), macs, rec);
      err := Save(diskOk);
    }

    method Forget(mac: string, diskOk: bool) returns (present: bool, err: Option<Error>)
      modifies this`deployed, disk
      ensures present <==> Canon(mac) in old(deployed)
      ensures deployed == old(deployed) - {Canon(mac)}
      ensures err == if present && !diskOk then Some(SaveFailed) else None
      ensures disk.content == if present && diskOk then Holds(deployed) else old(disk.content)
    {
      var c := Canon(mac);
      if c !in deployed {
        assert deployed == deployed - {c};
        return false, None;
      }
      deployed := deployed - {c};
      err := Save(diskOk);
      return true, err;
    }

    method ForgetAll(diskOk: bool) returns (err: Option<Error>)
      modifies this`deployed, disk
      ensures deployed == map[]
      ensures err == if diskOk then None else Some(SaveFailed)
      ensures disk.content == if diskOk then Holds(map[]) else old(disk.content)
    {
      deployed := map[];
      err := Save(diskOk);
    }
  }
}
