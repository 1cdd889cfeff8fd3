/** Saving a renewed certificate and key over two files, one rename each, on a file system where every
    operation may fail and the process may die between any two. */
module Files {
  import opened Wrappers
  import opened Wire

  /** A file is synced when what it holds would survive a power failure. */
  datatype File = File(data: Bytes, perm: nat, synced: bool)

  type Disk = map<string, File>

  const PRIVATE: nat := 0x180  // 0600
  const PUBLIC: nat := 0x1A4   // 0644

  /** Where a save fails, if it does. A failed write leaves some of the data in the temporary file. */
  datatype Fault =
    | NoFault | CreateFails | WriteFails(wrote: nat) | SyncFails | CloseFails | ChmodFails | RenameFails | ReadBackFails

  /** past is every state the disk has been in since Begin, the present one last: where a crash may leave it. */
  class FileSystem {
    var disk: Disk
    var past: seq<Disk>

    predicate Valid()
      reads this
    {
      past != [] && past[|past| - 1] == disk
    }

    constructor (disk: Disk)
      ensures Valid() && this.disk == disk && past == [disk]
    {
      this.disk, past := disk, [disk];
    }

    method Begin()
      modifies this`past
      ensures Valid() && past == [disk]
    {
      past := [disk];
    }

    method Store(name: string, file: File)
      requires Valid()
      modifies this
      ensures Valid() && disk == old(disk)[name := file] && past == old(past) + [disk]
    {
      disk := disk[name := file];
      past := past + [disk];
    }

    method Rename(from: string, to: string)
      requires Valid() && from in disk
      modifies this
      ensures Valid() && disk == old(disk)[to := old(disk)[from]] - (if from == to then {} else {from})
      ensures past == old(past) + [disk]
    {
      var file := disk[from];
      disk := disk[to := file];
      if from != to {
        disk := disk - {from};
      }
      past := past + [disk];
    }

    /** os.Remove, which may fail and whose error nobody looks at. */
    method Remove(name: string, fails: bool)
      requires Valid()
      modifies this
      ensures Valid() && disk == (if fails then old(disk) else old(disk) - {name}) && past == old(past) + [disk]
    {
      if !fails {
        disk := disk - {name};
      }
      past := past + [disk];
    }
  }

  predicate Holds(d: Disk, path: string, file: File) { path in d && d[path] == file }

  /** d has under p just what was has. */
  predicate Same(was: Disk, d: Disk, p: string) {
    (p in d <==> p in was) && (p in d && p in was ==> d[p] == was[p])
  }

  /** d is was but for the file at temp. */
  ghost predicate Beside(was: Disk, d: Disk, temp: string) {
    forall p :: p != temp ==> Same(was, d, p)
  }

  lemma StaysBeside(was: Disk, before: Disk, temp: string, file: File)
    requires Beside(was, before, temp)
    ensures Beside(was, before[temp := file], temp) && Beside(was, before - {temp}, temp)
  {
    var stored, removed := before[temp := file], before - {temp};
    forall p | p != temp ensures Same(was, stored, p) { assert Same(was, before, p); }
    forall p | p != temp ensures Same(was, removed, p) { assert Same(was, before, p); }
  }

  /** All the disks of the history are was but for temp. */
  ghost predicate AllBeside(was: Disk, past: seq<Disk>, temp: string) {
    forall i :: 0 <= i < |past| ==> Beside(was, past[i], temp)
  }

  /** The disks of the history before the k-th are was but for temp; in the others path holds the whole new file. */
  ghost predicate SwitchedAt(was: Disk, past: seq<Disk>, path: string, temp: string, file: File, k: nat) {
    && k <= |past|
    && AllBeside(was, past[..k], temp)
    && AllBeside(was[path := file], past[k..], temp)
  }

  /** At every moment every path but the temporary one holds just what it held, and the path being saved that or,
      from the k-th on, the whole new file. */
  lemma SwitchExactly(was: Disk, past: seq<Disk>, path: string, temp: string, file: File, k: nat, i: nat, p: string)
    requires SwitchedAt(was, past, path, temp, file, k) && i < |past| && p != temp
    ensures if p == path && i >= k then p in past[i] && past[i][p] == file
            else (p in past[i] <==> p in was) && (p in was ==> past[i][p] == was[p])
  {
    if i < k {
      assert Beside(was, past[..k][i], temp);
      assert Same(was, past[i], p);
    } else {
      assert Beside(was[path := file], past[k..][i - k], temp);
      assert Same(was[path := file], past[i], p);
    }
  }

  /** Writes data into a fresh temporary file beside path, one byte after the other, and has it synced. */
  method WriteTemp(fs: FileSystem, data: Bytes, perm: nat, temp: string, fault: Fault) returns (ok: bool)
    requires fs.Valid() && fs.past == [fs.disk] && temp !in fs.disk
    modifies fs
    ensures fs.Valid() && fs.past[0] == old(fs.disk) && AllBeside(old(fs.disk), fs.past, temp)
    ensures ok <==> !(fault.WriteFails? || fault.SyncFails? || fault.CloseFails? || fault.ChmodFails?)
    ensures ok ==> Holds(fs.disk, temp, File(data, perm, true))
  {
    ok := false;
    ghost var was := fs.disk;
    fs.Store(temp, File([], PRIVATE, false));
    var wanted := if fault.WriteFails? && fault.wrote < |data| then fault.wrote else |data|;
    for i := 0 to wanted
      invariant fs.Valid() && fs.past[0] == was && Holds(fs.disk, temp, File(data[..i], PRIVATE, false))
      invariant AllBeside(was, fs.past, temp) && Beside(was, fs.disk, temp)
    {
      assert data[..i + 1] == data[..i] + [data[i]];
      StaysBeside(was, fs.disk, temp, File(data[..i + 1], PRIVATE, false));
      fs.Store(temp, File(fs.disk[temp].data + [data[i]], PRIVATE, false));
    }
    if fault.WriteFails? || fault.SyncFails? {
      return;
    }
    assert data[..|data|] == data;
    StaysBeside(was, fs.disk, temp, fs.disk[temp].(synced := true));
    fs.Store(temp, fs.disk[temp].(synced := true));
    if fault.CloseFails? || fault.ChmodFails? {
      return;
    }
    StaysBeside(was, fs.disk, temp, fs.disk[temp].(perm := perm));
    fs.Store(temp, fs.disk[temp].(perm := perm));
    ok := true;
  }

  /** saveFileAtomic. Whenever the process dies, path holds either what it held or the whole synced new file.
      On return it holds the new one exactly when the rename was reached, which an error does not rule out. */
  method SaveFileAtomic(fs: FileSystem, path: string, data: Bytes, perm: nat, temp: string, fault: Fault, stuck: bool)
    returns (ok: bool, ghost k: nat)
    requires temp != path
    modifies fs
    ensures fs.Valid() && fs.past[0] == old(fs.disk)
    ensures SwitchedAt(old(fs.disk), fs.past, path, temp, File(data, perm, true), k)
    ensures ok <==> fault.NoFault? && temp !in old(fs.disk)
    ensures 0 < k && (k < |fs.past| <==> (fault.NoFault? || fault.ReadBackFails?) && temp !in old(fs.disk))
    ensures k < |fs.past| ==> fs.disk == old(fs.disk)[path := File(data, perm, true)]
    ensures !stuck && temp !in old(fs.disk) ==> temp !in fs.disk
  {
    fs.Begin();
    ghost var was := fs.disk;
    ok, k := false, 1;
    if fault.CreateFails? || temp in fs.disk {
      return;
    }
    var written := WriteTemp(fs, data, perm, temp, fault);
    assert Beside(was, fs.disk, temp) by { assert Beside(was, fs.past[|fs.past| - 1], temp); }
    k := |fs.past|;
    if !written || fault.RenameFails? {
      StaysBeside(was, fs.disk, temp, File(data, perm, true));
      fs.Remove(temp, stuck);
      k := |fs.past|;
      return;
    }
    ghost var before := fs.past;
    fs.Rename(temp, path);
    assert fs.disk == was[path := File(data, perm, true)] by { SameButTemp(was, before[k - 1], fs.disk, path, temp); }
    ok := fault.NoFault? && fs.disk[path].data == data;
    assert fs.disk - {temp} == fs.disk;
    fs.Remove(temp, stuck);
    assert fs.past[..k] == before && fs.past[k..] == [fs.disk, fs.disk];
  }

  lemma SameButTemp(was: Disk, before: Disk, after: Disk, path: string, temp: string)
    requires temp !in was && temp != path && temp in before && Beside(was, before, temp)
    requires after == before[path := before[temp]] - {temp}
    ensures after == was[path := before[temp]]
  {
    forall p ensures p in after <==> p in was[path := before[temp]] {
      assert p != temp ==> Same(was, before, p);
    }
    forall p | p in after ensures after[p] == was[path := before[temp]][p] {
      assert Same(was, before, p);
    }
  }
}
