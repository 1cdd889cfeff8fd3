/** Certificate renewal: fetched, validated, saved (key first), installed, reconnected, with a failure
    or a crash possible at every step and restarts that load what is on disk. */
module Renewal {
  import opened Wrappers
  import opened Wire
  import opened Files

  /** A certificate and its private key, in PEM. */
  datatype Pair = Pair(cert: Bytes, key: Bytes)

  datatype Leaf = Leaf(serial: nat, notAfter: int)

  /** What the TLS libraries make of PEM: whether a key is the certificate's, the leaf, and whether the cloud's
      CAs vouch for the certificate at a time. */
  datatype Crypto = Crypto(keyFits: (Bytes, Bytes) -> bool, leaf: Bytes -> Option<Leaf>, trusted: (Bytes, int) -> bool)

  /** certCheck.load succeeds. */
  predicate Loads(crypto: Crypto, pair: Pair, time: int) {
    crypto.keyFits(pair.cert, pair.key) && crypto.leaf(pair.cert).Some? && crypto.trusted(pair.cert, time)
  }

  /** The time certificates are validated for: the configured one, or now. */
  function TimeFor(fixedTime: Option<int>, now: int): int {
    match fixedTime case Some(t) => t case None => now
  }

  class CertProvider {
    const crypto: Crypto
    const fixedTime: Option<int>
    var current: Pair

    constructor (crypto: Crypto, fixedTime: Option<int>, pair: Pair)
      requires crypto.leaf(pair.cert).Some?
      ensures Valid() && current == pair && this.crypto == crypto && this.fixedTime == fixedTime
    {
      this.crypto, this.fixedTime, current := crypto, fixedTime, pair;
    }

    ghost predicate Valid()
      reads this
    {
      crypto.leaf(current.cert).Some?
    }

    function At(now: int): int { TimeFor(fixedTime, now) }

    function CurrentLeaf(): Leaf
      requires Valid()
      reads this
    {
      crypto.leaf(current.cert).value
    }

    /** A pair that does not load leaves the current one in place. */
    method Update(pair: Pair, now: int) returns (ok: bool)
      requires Valid()
      modifies this
      ensures Valid() && ok == Loads(crypto, pair, At(now)) && current == if ok then pair else old(current)
      ensures ok <==>
        && crypto.keyFits(pair.cert, pair.key) && crypto.leaf(pair.cert).Some?
        && crypto.trusted(pair.cert, if fixedTime.Some? then fixedTime.value else now)
    {
      ok := Loads(crypto, pair, At(now));
      if ok {
        current := pair;
      }
    }
  }

  /** newCertProvider: there is no provider for a pair that does not load. */
  method NewCertProvider(crypto: Crypto, fixedTime: Option<int>, pair: Pair, now: int) returns (p: CertProvider?)
    ensures p != null <==> Loads(crypto, pair, TimeFor(fixedTime, now))
    ensures p != null ==>
      fresh(p) && p.Valid() && p.current == pair && p.crypto == crypto && p.fixedTime == fixedTime
  {
    p := null;
    if Loads(crypto, pair, TimeFor(fixedTime, now)) {
      p := new CertProvider(crypto, fixedTime, pair);
    }
  }

  // ---- What is on disk ----

  function Data(d: Disk, path: string): Option<Bytes> {
    if path in d then Some(d[path].data) else None
  }

  function Stored(d: Disk, path: string): Option<File> {
    if path in d then Some(d[path]) else None
  }

  datatype Paths = Paths(cert: string, key: string)

  /** Fetched pairs are numbered in the order they were fetched; the disk holds the certificate of the c-th and the
      key of the k-th. */
  predicate HoldsGenerations(paths: Paths, d: Disk, fetched: seq<Pair>, c: nat, k: nat) {
    && c < |fetched| && k < |fetched|
    && Data(d, paths.cert) == Some(fetched[c].cert) && Data(d, paths.key) == Some(fetched[k].key)
  }

  /** The certificate on disk was validated and is no older than the one in use, and the key is no older than it. */
  ghost predicate Ordered(paths: Paths, d: Disk, fetched: seq<Pair>, validated: set<nat>, use: nat) {
    exists c: nat, k: nat ::
      HoldsGenerations(paths, d, fetched, c, k) && use <= c <= k && c in validated
  }

  /** The circumstances of one check: when things happen, what the CA answers, and what goes wrong on disk. */
  datatype Conditions = Conditions(
    now: int, fetch: Option<Pair>, checkedAt: int, updatedAt: int,
    keyTemp: string, keyFault: Fault, keyStuck: bool, certTemp: string, certFault: Fault, certStuck: bool)

  predicate Plausible(crypto: Crypto, paths: Paths, on: Conditions) {
    && on.keyTemp != paths.key && on.keyTemp != paths.cert && on.certTemp != paths.key && on.certTemp != paths.cert
    && (on.fetch.Some? ==> crypto.keyFits(on.fetch.value.cert, on.fetch.value.key))
  }

  /** Nothing goes wrong on disk. */
  predicate Smooth(on: Conditions, d: Disk) {
    on.keyFault.NoFault? && on.keyTemp !in d && on.certFault.NoFault? && on.certTemp !in d
  }

  /** The key file, and the certificate file, is replaced when its rename is reached, even if the save then fails. */
  predicate KeyReplaced(on: Conditions, d: Disk) {
    (on.keyFault.NoFault? || on.keyFault.ReadBackFails?) && on.keyTemp !in d
  }

  predicate CertReplaced(on: Conditions, d: Disk) {
    && on.keyFault.NoFault? && on.keyTemp !in d
    && (on.certFault.NoFault? || on.certFault.ReadBackFails?) && on.certTemp !in d
  }

  /** What a path holds once the key, and then the certificate, has been saved over its own. */
  function Saved(paths: Paths, was: Disk, pair: Pair, p: string, keyDone: bool, certDone: bool): Option<File> {
    if certDone && p == paths.cert then Some(File(pair.cert, PUBLIC, true))
    else if keyDone && p == paths.key then Some(File(pair.key, PRIVATE, true))
    else Stored(was, p)
  }

  predicate HasSaved(paths: Paths, was: Disk, pair: Pair, d: Disk, keyDone: bool, certDone: bool) {
    && Stored(d, paths.key) == Saved(paths, was, pair, paths.key, keyDone, certDone)
    && Stored(d, paths.cert) == Saved(paths, was, pair, paths.cert, keyDone, certDone)
  }

  /** What a save leaves on disk. */
  predicate Leaves(paths: Paths, on: Conditions, pair: Pair, was: Disk, d: Disk) {
    HasSaved(paths, was, pair, d, KeyReplaced(on, was), CertReplaced(on, was))
  }

  /** The disks of a save: the key is new from the a-th on, the certificate from the b-th on. */
  ghost predicate SavedKeyFirst(paths: Paths, was: Disk, past: seq<Disk>, pair: Pair, a: nat, b: nat) {
    && 0 < a <= b <= |past|
    && forall i :: 0 <= i < |past| ==> HasSaved(paths, was, pair, past[i], a <= i, b <= i)
  }

  /** SaveToFiles: the key, then the certificate. */
  method SaveToFiles(fs: FileSystem, paths: Paths, pair: Pair, on: Conditions)
    returns (ok: bool, past: seq<Disk>, ghost a: nat, ghost b: nat)
    requires on.keyTemp != paths.key && on.keyTemp != paths.cert
    requires on.certTemp != paths.key && on.certTemp != paths.cert
    modifies fs
    ensures past != [] && past[0] == old(fs.disk) && past[|past| - 1] == fs.disk
    ensures SavedKeyFirst(paths, old(fs.disk), past, pair, a, b)
    ensures ok <==> Smooth(on, old(fs.disk))
    ensures ok <==>
      && on.keyFault == NoFault && on.keyTemp !in old(fs.disk)
      && on.certFault == NoFault && on.certTemp !in old(fs.disk)
    ensures ok ==> paths.cert in fs.disk && fs.disk[paths.cert] == File(pair.cert, 0x1A4, true)
    ensures ok && paths.key != paths.cert ==>
      paths.key in fs.disk && fs.disk[paths.key] == File(pair.key, 0x180, true)
    ensures forall i :: 0 <= i < |past| && paths.key != paths.cert ==>
      Stored(past[i], paths.key) in {Stored(old(fs.disk), paths.key), Some(File(pair.key, 0x180, true))}
    ensures a < |past| <==> KeyReplaced(on, old(fs.disk))
    ensures b < |past| <==> CertReplaced(on, old(fs.disk))
    ensures Leaves(paths, on, pair, old(fs.disk), fs.disk)
  {
    ghost var was := fs.disk;
    ghost var k;
    ok, k := SaveFileAtomic(fs, paths.key, pair.key, PRIVATE, on.keyTemp, on.keyFault, on.keyStuck);
    past, a, b := fs.past, k, |fs.past|;
    KeyPhase(paths, was, past, pair, on.keyTemp, k);
    if !ok {
      return;
    }
    ghost var between := fs.disk;
    ok, k := SaveFileAtomic(fs, paths.cert, pair.cert, PUBLIC, on.certTemp, on.certFault, on.certStuck);
    CertPhase(paths, was, between, fs.past, pair, on.certTemp, k);
    past, b := past + fs.past, |past| + k;
  }

  lemma KeyPhase(paths: Paths, was: Disk, past: seq<Disk>, pair: Pair, temp: string, k: nat)
    requires temp != paths.key && temp != paths.cert && 0 < k
    requires SwitchedAt(was, past, paths.key, temp, File(pair.key, PRIVATE, true), k)
    ensures SavedKeyFirst(paths, was, past, pair, k, |past|)
  {
    forall i | 0 <= i < |past| ensures HasSaved(paths, was, pair, past[i], k <= i, false) {
      BesideAt(was, past, paths.key, temp, File(pair.key, PRIVATE, true), k, i, paths.key);
      BesideAt(was, past, paths.key, temp, File(pair.key, PRIVATE, true), k, i, paths.cert);
    }
  }

  lemma CertPhase(paths: Paths, was: Disk, between: Disk, past: seq<Disk>, pair: Pair, temp: string, k: nat)
    requires temp != paths.key && temp != paths.cert && HasSaved(paths, was, pair, between, true, false)
    requires SwitchedAt(between, past, paths.cert, temp, File(pair.cert, PUBLIC, true), k)
    ensures forall i :: 0 <= i < |past| ==> HasSaved(paths, was, pair, past[i], true, k <= i)
  {
    forall i | 0 <= i < |past| ensures HasSaved(paths, was, pair, past[i], true, k <= i) {
      BesideAt(between, past, paths.cert, temp, File(pair.cert, PUBLIC, true), k, i, paths.key);
      BesideAt(between, past, paths.cert, temp, File(pair.cert, PUBLIC, true), k, i, paths.cert);
    }
  }

  lemma BesideAt(was: Disk, past: seq<Disk>, path: string, temp: string, file: File, k: nat, i: nat, p: string)
    requires SwitchedAt(was, past, path, temp, file, k) && i < |past| && p != temp
    ensures Same(if i < k then was else was[path := file], past[i], p)
  {
    if i < k {
      assert Beside(was, past[..k][i], temp);
    } else {
      assert Beside(was[path := file], past[k..][i - k], temp);
    }
  }

  /** Every disk of a history is in order: this is what a crash at any moment leaves. */
  ghost predicate AllOrdered(paths: Paths, past: seq<Disk>, fetched: seq<Pair>, validated: set<nat>, use: nat) {
    forall i :: 0 <= i < |past| ==> Ordered(paths, past[i], fetched, validated, use)
  }

  lemma OrderSurvivesFetch(paths: Paths, d: Disk, fetched: seq<Pair>, validated: set<nat>, use: nat, pair: Pair,
                           more: set<nat>)
    requires Ordered(paths, d, fetched, validated, use)
    ensures Ordered(paths, d, fetched + [pair], validated + more, use)
  {
    var c: nat, k: nat :|
      HoldsGenerations(paths, d, fetched, c, k) && use <= c <= k && c in validated;
    assert HoldsGenerations(paths, d, fetched + [pair], c, k);
  }

  lemma OrderSurvivesValidation(paths: Paths, d: Disk, fetched: seq<Pair>, validated: set<nat>, use: nat, g: nat)
    requires Ordered(paths, d, fetched, validated, use)
    ensures Ordered(paths, d, fetched, validated + {g}, use)
  {
    var c: nat, k: nat :|
      HoldsGenerations(paths, d, fetched, c, k) && use <= c <= k && c in validated;
  }

  /** A save of the newest, validated generation keeps the order at every moment. */
  lemma SaveKeepsOrder(paths: Paths, was: Disk, past: seq<Disk>, fetched: seq<Pair>, validated: set<nat>, use: nat,
                       a: nat, b: nat)
    requires paths.cert != paths.key && fetched != [] && |fetched| - 1 in validated && past != []
    requires Ordered(paths, was, fetched, validated, use)
    requires SavedKeyFirst(paths, was, past, fetched[|fetched| - 1], a, b)
    ensures AllOrdered(paths, past, fetched, validated, use)
    ensures b < |past| ==> Ordered(paths, past[|past| - 1], fetched, validated, |fetched| - 1)
  {
    var g := |fetched| - 1;
    var c: nat, k: nat :|
      HoldsGenerations(paths, was, fetched, c, k) && use <= c <= k && c in validated;
    forall i | 0 <= i < |past| ensures Ordered(paths, past[i], fetched, validated, use) {
      if i < a {
        assert HoldsGenerations(paths, past[i], fetched, c, k);
      } else if i < b {
        assert HoldsGenerations(paths, past[i], fetched, c, g);
      } else {
        assert HoldsGenerations(paths, past[i], fetched, g, g);
      }
    }
    assert b < |past| ==> HoldsGenerations(paths, past[|past| - 1], fetched, g, g);
  }

  // ---- The renewer ----

  datatype Verdict = NotDue | NoAnswer | NoLeaf | SameSerial | Refused | Unsaved | Unused | Renewed {
    /** The new pair was handed to the application to save. */
    predicate Saving() { Unsaved? || Unused? || Renewed? }
  }

  /** What the renewer is set up with. */
  datatype Setting = Setting(crypto: Crypto, fixedTime: Option<int>, paths: Paths, before: int)

  /** A certificate is due for renewal when it expires within before. */
  predicate Due(notAfter: int, before: int, now: int) { notAfter - now <= before }

  /** What a check with the certificate whose leaf is given comes to, from its circumstances alone. */
  function VerdictOf(setting: Setting, leaf: Leaf, on: Conditions, was: Disk): (r: Verdict)
    ensures r.Saving() ==> on.fetch.Some?
  {
    if !Due(leaf.notAfter, setting.before, on.now) then NotDue
    else if on.fetch.None? then NoAnswer
    else
      var renewed := setting.crypto.leaf(on.fetch.value.cert);
      if renewed.None? then NoLeaf
      else if renewed.value.serial == leaf.serial then SameSerial
      else if !Loads(setting.crypto, on.fetch.value, TimeFor(setting.fixedTime, on.checkedAt)) then Refused
      else if !Smooth(on, was) then Unsaved
      else if !Loads(setting.crypto, on.fetch.value, TimeFor(setting.fixedTime, on.updatedAt)) then Unused
      else Renewed
  }

  /** What a check that got a pair of another serial comes to: refused unless the key is its own and the certificate is
      vouched for; then unsaved unless nothing goes wrong on disk; then renewed if it is still vouched for. */
  lemma FreshPairExactly(setting: Setting, leaf: Leaf, on: Conditions, was: Disk)
    ensures
      (&& leaf.notAfter - on.now <= setting.before && on.fetch.Some?
       && setting.crypto.leaf(on.fetch.value.cert).Some?
       && setting.crypto.leaf(on.fetch.value.cert).value.serial != leaf.serial) ==>
      var r, pair := VerdictOf(setting, leaf, on, was), on.fetch.value;
      var checked := if setting.fixedTime.Some? then setting.fixedTime.value else on.checkedAt;
      var updated := if setting.fixedTime.Some? then setting.fixedTime.value else on.updatedAt;
      var accepted := setting.crypto.keyFits(pair.cert, pair.key) && setting.crypto.trusted(pair.cert, checked);
      var saved := on.keyFault == NoFault && on.keyTemp !in was && on.certFault == NoFault && on.certTemp !in was;
      && (r.Refused? <==> !accepted)
      && (r.Unsaved? <==> accepted && !saved)
      && (r.Unused? <==> accepted && saved && !setting.crypto.trusted(pair.cert, updated))
      && (r.Renewed? <==> accepted && saved && setting.crypto.trusted(pair.cert, updated))
  {
  }

  /** The verdicts before that. */
  lemma VerdictExactly(setting: Setting, leaf: Leaf, on: Conditions, was: Disk)
    ensures
      var r, due := VerdictOf(setting, leaf, on, was), leaf.notAfter - on.now <= setting.before;
      && (r.NotDue? <==> !due)
      && (r.NoAnswer? <==> due && on.fetch.None?)
      && (r.NoLeaf? <==> due && on.fetch.Some? && setting.crypto.leaf(on.fetch.value.cert).None?)
      && (r.SameSerial? <==>
            && due && on.fetch.Some? && setting.crypto.leaf(on.fetch.value.cert).Some?
            && setting.crypto.leaf(on.fetch.value.cert).value.serial == leaf.serial)
  {
  }

  /** What a check with verdict r leaves on disk and in use. */
  predicate Settles(paths: Paths, on: Conditions, r: Verdict, was: Disk, d: Disk, current: Pair, inUse: Pair) {
    && (r.Saving() ==> on.fetch.Some? && Leaves(paths, on, on.fetch.value, was, d))
    && (!r.Saving() ==> d == was)
    && inUse == (if r.Renewed? && on.fetch.Some? then on.fetch.value else current)
  }

  /** The disk holds the very pair. */
  predicate InStep(paths: Paths, d: Disk, pair: Pair) {
    Data(d, paths.cert) == Some(pair.cert) && Data(d, paths.key) == Some(pair.key)
  }

  /** The new pair was saved and refused when it was to be used, or its save failed with a new file in place already. */
  predicate Strays(setting: Setting, leaf: Leaf, on: Conditions, was: Disk, current: Pair) {
    match VerdictOf(setting, leaf, on, was)
    case Unused => true
    case Unsaved => CertReplaced(on, was) || (KeyReplaced(on, was) && on.fetch.value.key != current.key)
    case _ => false
  }

  /** A check that starts with what is in use on disk ends so exactly unless it strays. */
  lemma DiskMatchesUseExactly(setting: Setting, on: Conditions, was: Disk, current: Pair, d: Disk, inUse: Pair)
    requires setting.paths.cert != setting.paths.key && setting.crypto.leaf(current.cert).Some?
    requires InStep(setting.paths, was, current)
    requires
      var r := VerdictOf(setting, setting.crypto.leaf(current.cert).value, on, was);
      Settles(setting.paths, on, r, was, d, current, inUse)
    ensures
      InStep(setting.paths, d, inUse) <==> !Strays(setting, setting.crypto.leaf(current.cert).value, on, was, current)
  {
  }

  /** Certificates of any bytes, whose serial is their length, trusted before a time. */
  function PlainCrypto(until: int): Crypto {
    Crypto((cert, key) => true, cert => Some(Leaf(|cert|, 0)), (cert, time) => time < until)
  }

  /** The disk does stray: a key whose read-back fails after its rename, and a certificate that expires, or is no longer
      vouched for, while it is being saved. */
  lemma DiskMayStray() returns (setting: Setting, was: Disk, current: Pair, misread: Conditions, late: Conditions)
    ensures setting.crypto.leaf(current.cert).Some? && InStep(setting.paths, was, current)
    ensures Plausible(setting.crypto, setting.paths, misread) && Plausible(setting.crypto, setting.paths, late)
    ensures setting.before > 0
    ensures
      var leaf := setting.crypto.leaf(current.cert).value;
      && VerdictOf(setting, leaf, misread, was).Unsaved? && Strays(setting, leaf, misread, was, current)
      && VerdictOf(setting, leaf, late, was).Unused? && Strays(setting, leaf, late, was, current)
      && (forall d, inUse :: Settles(setting.paths, misread, Unsaved, was, d, current, inUse) ==>
            !InStep(setting.paths, d, inUse))
      && (forall d, inUse :: Settles(setting.paths, late, Unused, was, d, current, inUse) ==>
            !InStep(setting.paths, d, inUse))
  {
    setting := Setting(PlainCrypto(1), None, Paths("cert", "key"), 1);
    was := map["cert" := File([1], PUBLIC, true), "key" := File([1], PRIVATE, true)];
    current := Pair([1], [1]);
    var renewed := Some(Pair([2, 2], [2]));
    misread := Conditions(0, renewed, 0, 0, "key1", ReadBackFails, false, "cert1", NoFault, false);
    late := Conditions(0, renewed, 0, 1, "key1", NoFault, false, "cert1", NoFault, false);
    forall d, inUse | Settles(setting.paths, misread, Unsaved, was, d, current, inUse)
      ensures !InStep(setting.paths, d, inUse)
    {
      DiskMatchesUseExactly(setting, misread, was, current, d, inUse);
    }
    forall d, inUse | Settles(setting.paths, late, Unused, was, d, current, inUse)
      ensures !InStep(setting.paths, d, inUse)
    {
      DiskMatchesUseExactly(setting, late, was, current, d, inUse);
    }
  }

  /** A process with a renewing client, and the disk it starts from. fetched, validated and use follow the pairs the CA
      issued: which came when, which passed validation, which the client was last on. */
  class Host {
    const crypto: Crypto
    const paths: Paths
    const before: int
    const provider: CertProvider
    const fs: FileSystem
    var running: bool
    var reconnects: nat
    ghost var fetched: seq<Pair>
    ghost var validated: set<nat>
    ghost var use: nat

    function Settings(): Setting { Setting(crypto, provider.fixedTime, paths, before) }

    ghost predicate Valid()
      reads this, provider, fs
    {
      && provider.crypto == crypto && provider.Valid() && paths.cert != paths.key
      && use < |fetched| && use in validated && Ordered(paths, fs.disk, fetched, validated, use)
      && (running ==> provider.current.cert == fetched[use].cert)
      && (forall i :: 0 <= i < |fetched| ==> crypto.keyFits(fetched[i].cert, fetched[i].key))
    }

    constructor (crypto: Crypto, fixedTime: Option<int>, paths: Paths, before: int, pair: Pair, now: int)
      requires paths.cert != paths.key
      requires Loads(crypto, pair, match fixedTime case Some(t) => t case None => now)
      ensures Valid() && running && use == 0 && fetched == [pair] && fresh(provider) && fresh(fs)
    {
      this.crypto, this.paths, this.before := crypto, paths, before;
      provider := new CertProvider(crypto, fixedTime, pair);
      var disk := map[paths.cert := File(pair.cert, PUBLIC, true), paths.key := File(pair.key, PRIVATE, true)];
      fs := new FileSystem(disk);
      running, reconnects, fetched, validated, use := true, 0, [pair], {0}, 0;
      new;
      assert HoldsGenerations(paths, fs.disk, fetched, 0, 0);
    }

    /** check, with SaveToFiles as OnRenewed. past is every disk on the way: a crash leaves one of them. */
    method Check(on: Conditions) returns (r: Verdict, past: seq<Disk>)
      requires Valid() && running && Plausible(crypto, paths, on)
      modifies this, provider, fs
      ensures Valid() && running && old(use) <= use
      ensures past != [] && past[0] == old(fs.disk) && past[|past| - 1] == fs.disk
      ensures AllOrdered(paths, past, fetched, validated, old(use))
      ensures r == VerdictOf(Settings(), old(provider.CurrentLeaf()), on, old(fs.disk))
      ensures Settles(paths, on, r, old(fs.disk), fs.disk, old(provider.current), provider.current)
      ensures r.Renewed? ==>
        && on.fetch == Some(provider.current)
        && provider.CurrentLeaf().serial != old(provider.CurrentLeaf()).serial
        && Loads(crypto, provider.current, provider.At(on.checkedAt))
        && Data(fs.disk, paths.cert) == Some(provider.current.cert)
        && Data(fs.disk, paths.key) == Some(provider.current.key)
      ensures !r.Renewed? ==> provider.current == old(provider.current)
      ensures reconnects == old(reconnects) + if r.Renewed? then 1 else 0
      ensures r.Unused? ==> provider.fixedTime.None?
      ensures fetched == old(fetched) + (if r.NotDue? || on.fetch.None? then [] else [on.fetch.value])
      ensures validated == old(validated) + (if r.Unsaved? || r.Unused? || r.Renewed? then {|fetched| - 1} else {})
      ensures use == if r.Renewed? then |fetched| - 1 else old(use)
      ensures
        var serial, due := old(provider.CurrentLeaf()).serial, old(provider.CurrentLeaf()).notAfter - on.now <= before;
        && (r.NotDue? <==> !due)
        && (r.NoAnswer? <==> due && on.fetch.None?)
        && (r.NoLeaf? <==> due && on.fetch.Some? && crypto.leaf(on.fetch.value.cert).None?)
        && (r.SameSerial? <==>
              && due && on.fetch.Some? && crypto.leaf(on.fetch.value.cert).Some?
              && crypto.leaf(on.fetch.value.cert).value.serial == serial)
      ensures !r.NotDue? && !r.NoAnswer? && !r.NoLeaf? && !r.SameSerial? ==>
        var pair, fixedTime := on.fetch.value, provider.fixedTime;
        var checked := if fixedTime.Some? then fixedTime.value else on.checkedAt;
        var updated := if fixedTime.Some? then fixedTime.value else on.updatedAt;
        var accepted := crypto.keyFits(pair.cert, pair.key) && crypto.trusted(pair.cert, checked);
        var saved := && on.keyFault == NoFault && on.keyTemp !in old(fs.disk)
                     && on.certFault == NoFault && on.certTemp !in old(fs.disk);
        && (r.Refused? <==> !accepted)
        && (r.Unsaved? <==> accepted && !saved)
        && (r.Unused? <==> accepted && saved && !crypto.trusted(pair.cert, updated))
        && (r.Renewed? <==> accepted && saved && crypto.trusted(pair.cert, updated))
    {
      past := [fs.disk];
      ghost var leaf := provider.CurrentLeaf();
      VerdictExactly(Settings(), leaf, on, fs.disk);
      FreshPairExactly(Settings(), leaf, on, fs.disk);
      var judged := Judge(on);
      assert validated + {} == validated;
      if judged.Some? {
        return judged.value, past;
      }
      r, past := SaveAndInstall(on.fetch.value, on);
    }

    /** The first half of check, which only asks: the verdict, unless the pair that came is to be saved. */
    method Judge(on: Conditions) returns (v: Option<Verdict>)
      requires Valid() && running && Plausible(crypto, paths, on)
      modifies this`fetched
      ensures Valid()
      ensures fetched == old(fetched) + (if v == Some(NotDue) || on.fetch.None? then [] else [on.fetch.value])
      ensures var r := VerdictOf(Settings(), provider.CurrentLeaf(), on, fs.disk);
              if r.Saving() then v == None && Loads(crypto, on.fetch.value, provider.At(on.checkedAt)) else v == Some(r)
    {
      var leaf := provider.CurrentLeaf();
      if !Due(leaf.notAfter, before, on.now) {
        return Some(NotDue);
      }
      if on.fetch.None? {
        return Some(NoAnswer);
      }
      var pair := on.fetch.value;
      OrderSurvivesFetch(paths, fs.disk, fetched, validated, use, pair, {});
      assert validated + {} == validated;
      fetched := fetched + [pair];
      if crypto.leaf(pair.cert).None? {
        return Some(NoLeaf);
      }
      if crypto.leaf(pair.cert).value.serial == leaf.serial {
        return Some(SameSerial);
      }
      if !Loads(crypto, pair, provider.At(on.checkedAt)) {
        return Some(Refused);
      }
      return None;
    }

    /** The second half of check, for a pair that was validated. */
    method SaveAndInstall(pair: Pair, on: Conditions) returns (r: Verdict, past: seq<Disk>)
      requires Valid() && running && Plausible(crypto, paths, on)
      requires fetched[|fetched| - 1] == pair && Loads(crypto, pair, provider.At(on.checkedAt))
      modifies this, provider, fs
      ensures Valid() && running && fetched == old(fetched)
      ensures past != [] && past[0] == old(fs.disk) && past[|past| - 1] == fs.disk
      ensures AllOrdered(paths, past, fetched, validated, old(use))
      ensures provider.current == if r.Renewed? then pair else old(provider.current)
      ensures r.Renewed? ==> Data(fs.disk, paths.cert) == Some(pair.cert) && Data(fs.disk, paths.key) == Some(pair.key)
      ensures r.Unused? ==> provider.fixedTime.None?
      ensures reconnects == old(reconnects) + if r.Renewed? then 1 else 0
      ensures validated == old(validated) + {|fetched| - 1} && use == if r.Renewed? then |fetched| - 1 else old(use)
      ensures r == if !Smooth(on, old(fs.disk)) then Unsaved
                   else if !Loads(crypto, pair, provider.At(on.updatedAt)) then Unused else Renewed
      ensures Leaves(paths, on, pair, old(fs.disk), fs.disk)
    {
      var ok;
      ok, past := SavePair(pair, on);
      if !ok {
        return Unsaved, past;
      }
      ok := Install(pair, on.updatedAt);
      r := if ok then Renewed else Unused;
    }

    /** Update and, unless that fails, Reconnect. */
    method Install(pair: Pair, now: int) returns (ok: bool)
      requires Valid() && running && fetched[|fetched| - 1] == pair && |fetched| - 1 in validated
      requires Ordered(paths, fs.disk, fetched, validated, |fetched| - 1)
      modifies this`use, this`reconnects, provider
      ensures Valid() && ok == Loads(crypto, pair, provider.At(now))
      ensures provider.current == if ok then pair else old(provider.current)
      ensures use == (if ok then |fetched| - 1 else old(use)) && reconnects == old(reconnects) + if ok then 1 else 0
    {
      ok := provider.Update(pair, now);
      if ok {
        use := |fetched| - 1;
        reconnects := reconnects + 1;
      }
    }

    /** OnRenewed: the order holds at every moment, and, once both files are saved, for the new generation. */
    method SavePair(pair: Pair, on: Conditions) returns (ok: bool, past: seq<Disk>)
      requires Valid() && running && Plausible(crypto, paths, on)
      requires fetched[|fetched| - 1] == pair
      modifies this`validated, fs
      ensures Valid() && validated == old(validated) + {|fetched| - 1}
      ensures past != [] && past[0] == old(fs.disk) && past[|past| - 1] == fs.disk
      ensures AllOrdered(paths, past, fetched, validated, use)
      ensures ok <==> Smooth(on, old(fs.disk))
      ensures ok ==> Ordered(paths, fs.disk, fetched, validated, |fetched| - 1)
      ensures Leaves(paths, on, pair, old(fs.disk), fs.disk)
    {
      ghost var a, b;
      ghost var was, g: nat := fs.disk, |fetched| - 1;
      OrderSurvivesValidation(paths, was, fetched, validated, use, g);
      validated := validated + {g};
      ok, past, a, b := SaveToFiles(fs, paths, pair, on);
      SaveKeepsOrder(paths, was, past, fetched, validated, use, a, b);
    }

    /** The process dies at moment at of a check, or after it. */
    method CrashDuring(on: Conditions, at: nat) returns (past: seq<Disk>)
      requires Valid() && running && Plausible(crypto, paths, on)
      modifies this, provider, fs
      ensures Valid() && !running && old(fetched) <= fetched && old(validated) <= validated && old(use) <= use
      ensures AllOrdered(paths, past, fetched, validated, old(use))
      ensures past != [] && past[0] == old(fs.disk) && fs.disk == if at < |past| then past[at] else past[|past| - 1]
      ensures at < |past| ==> use == old(use)
    {
      var r;
      r, past := Check(on);
      if at < |past| {
        fs.disk := past[at];
        use := old(use);
      }
      running := false;
    }

    /** A new process loads the files. It comes up on the certificate last in use or a newer validated one, or not at
        all: an older one is never loaded, and a key that does not fit means a crash or an error between the two
        saves. */
    method Restart(now: int) returns (up: bool, ghost c: nat, ghost k: nat)
      requires Valid()
      modifies this, provider
      ensures Valid() && running == up && fetched == old(fetched) && validated == old(validated) && old(use) <= use
      ensures HoldsGenerations(paths, fs.disk, fetched, c, k) && old(use) <= c <= k && c in validated
      ensures up <==> Loads(crypto, Pair(fetched[c].cert, fetched[k].key), provider.At(now))
      ensures up ==> use == c && provider.current == Pair(fetched[c].cert, fetched[k].key)
      ensures c == k ==> crypto.keyFits(fetched[c].cert, fetched[k].key)
    {
      c, k :| HoldsGenerations(paths, fs.disk, fetched, c, k) && use <= c <= k && c in validated;
      var pair := Pair(fs.disk[paths.cert].data, fs.disk[paths.key].data);
      up := Loads(crypto, pair, provider.At(now));
      running := up;
      if up {
        provider.current := pair;
        use := c;
      }
    }

    method Happens(e: Event) returns (ghost trace: seq<Moment>)
      requires Valid() && (!e.Restarts? ==> Plausible(crypto, paths, e.on))
      modifies this, provider, fs
      ensures Valid() && old(fetched) <= fetched && old(validated) <= validated
      ensures InOrder(paths, trace, fetched, validated) && NeverBack(trace, old(use), use)
      ensures trace != [] && trace[0].disk == old(fs.disk) && trace[|trace| - 1] == Moment(fs.disk, use)
    {
      var past := [fs.disk];
      ghost var use0 := use;
      match e {
        case Checks(on) =>
          if running {
            var r;
            r, past := Check(on);
          }
        case CrashesDuring(on, at) =>
          if running {
            past := CrashDuring(on, at);
          }
        case Restarts(now) =>
          var up, c, k := Restart(now);
      }
      trace := Held(past, use0) + [Moment(fs.disk, use)];
      HeldInOrder(paths, past, fetched, validated, use0, fs.disk, use);
    }

    /** A whole life: checks, crashes at any moment of a check, and restarts, in any order. At every moment the disk
        holds two whole generations in order, neither older than the certificate then in use, which never goes back. */
    method Live(events: seq<Event>) returns (ghost trace: seq<Moment>)
      requires Valid()
      requires forall e :: e in events && !e.Restarts? ==> Plausible(crypto, paths, e.on)
      modifies this, provider, fs
      ensures Valid() && old(fetched) <= fetched
      ensures InOrder(paths, trace, fetched, validated) && NeverBack(trace, old(use), use)
      ensures trace != [] && trace[0].disk == old(fs.disk) && trace[|trace| - 1] == Moment(fs.disk, use)
    {
      trace := [Moment(fs.disk, use)];
      for i := 0 to |events|
        invariant Valid() && old(fetched) <= fetched
        invariant InOrder(paths, trace, fetched, validated) && NeverBack(trace, old(use), use)
        invariant trace != [] && trace[0].disk == old(fs.disk) && trace[|trace| - 1] == Moment(fs.disk, use)
      {
        ghost var fetched0, validated0, use0 := fetched, validated, use;
        assert events[i] in events;
        ghost var more := Happens(events[i]);
        TraceJoins(paths, trace, more, fetched0, fetched, validated0, validated, old(use), use0, use);
        trace := trace + more;
      }
    }
  }

  /** The disk, and the generation in use, at one moment. */
  datatype Moment = Moment(disk: Disk, use: nat)

  ghost predicate InOrder(paths: Paths, trace: seq<Moment>, fetched: seq<Pair>, validated: set<nat>) {
    forall i :: 0 <= i < |trace| ==> Ordered(paths, trace[i].disk, fetched, validated, trace[i].use)
  }

  /** Use starts no earlier than first, never decreases, and ends no later than last. */
  ghost predicate NeverBack(trace: seq<Moment>, first: nat, last: nat) {
    && first <= last
    && (forall i :: 0 <= i < |trace| ==> first <= trace[i].use <= last)
    && (forall i, j :: 0 <= i < j < |trace| ==> trace[i].use <= trace[j].use)
  }

  /** The disks of one event, before it changes what is in use. */
  function Held(past: seq<Disk>, use: nat): (trace: seq<Moment>)
    ensures |trace| == |past|
  {
    seq(|past|, i requires 0 <= i < |past| => Moment(past[i], use))
  }

  lemma HeldInOrder(paths: Paths, past: seq<Disk>, fetched: seq<Pair>, validated: set<nat>, use: nat, d: Disk,
                    use': nat)
    requires AllOrdered(paths, past, fetched, validated, use)
    requires Ordered(paths, d, fetched, validated, use') && use <= use'
    ensures InOrder(paths, Held(past, use) + [Moment(d, use')], fetched, validated)
    ensures NeverBack(Held(past, use) + [Moment(d, use')], use, use')
  {
  }

  datatype Event = Checks(on: Conditions) | CrashesDuring(on: Conditions, at: nat) | Restarts(now: int)

  lemma TraceJoins(paths: Paths, trace: seq<Moment>, next: seq<Moment>, fetched: seq<Pair>, more: seq<Pair>,
                   validated: set<nat>, wider: set<nat>, first: nat, middle: nat, last: nat)
    requires InOrder(paths, trace, fetched, validated) && fetched <= more && validated <= wider
    requires InOrder(paths, next, more, wider) && NeverBack(trace, first, middle) && NeverBack(next, middle, last)
    ensures InOrder(paths, trace + next, more, wider) && NeverBack(trace + next, first, last)
  {
    forall i | 0 <= i < |trace| ensures Ordered(paths, trace[i].disk, more, wider, trace[i].use) {
      var c: nat, k: nat :|
        HoldsGenerations(paths, trace[i].disk, fetched, c, k) && trace[i].use <= c <= k && c in validated;
      assert HoldsGenerations(paths, trace[i].disk, more, c, k);
    }
  }
}
