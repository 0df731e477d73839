/** `save_login` and the other temp-file-and-rename writers, with dying processes and power losses. */
module SaveLogin {
  type Files = map<string, string>

  const CONFIG := "config.json"
  const CONFIG_TMP := "config.json.tmp"
  const KEYRING := "keyring"
  const KEYRING_TMP := "keyring.tmp"

  /** The files as programs see them, and those whose content was never synced. */
  datatype Disk = Disk(files: Files, unsynced: set<string>)

  /** What goes wrong, and when: `after` whole file operations have taken effect, and `torn`
      characters of the one in progress (`torn < 0`: its file was not even created). A power loss
      also keeps only the first `kept` characters of every file that was not synced. */
  datatype Crash = Crash(after: nat, torn: int, power: bool, kept: nat)

  function Cut(content: string, n: nat): string { if n <= |content| then content[..n] else content }

  // ---------- file operations ----------

  /** Create or truncate, then write; what is written is unsynced until it is synced. */
  function Written(d: Disk, path: string, content: string, sync: bool): Disk {
    Disk(d.files[path := content], if sync then d.unsynced - {path} else d.unsynced + {path})
  }

  function TornWrite(d: Disk, path: string, content: string, torn: int): Disk {
    if torn < 0 then d else Written(d, path, Cut(content, torn), false)
  }

  /** Atomic; the content is as safe under its new name as it was under the old. */
  function Renamed(d: Disk, from: string, to: string): Disk
    requires from in d.files
  {
    Disk((d.files - {from})[to := d.files[from]],
         d.unsynced - {from, to} + if from in d.unsynced then {to} else {})
  }

  /** The disk after writing `tmp` and renaming it over `path`, if it stops at `c`. */
  function AfterReplace(d: Disk, tmp: string, path: string, content: string, sync: bool, after: nat, torn: int): Disk {
    if after == 0 then TornWrite(d, tmp, content, torn)
    else if after == 1 then Written(d, tmp, content, sync)
    else Renamed(Written(d, tmp, content, sync), tmp, path)
  }

  /** The disk `save_login` leaves if it stops there: the config first, not synced; the keyring
      last, synced. */
  function AfterSave(d: Disk, config: string, line: string, after: nat, torn: int): Disk {
    if after < 2 then AfterReplace(d, CONFIG_TMP, CONFIG, config, false, after, torn)
    else
      var done := AfterReplace(d, CONFIG_TMP, CONFIG, config, false, 2, 0);
      AfterReplace(done, KEYRING_TMP, KEYRING, line, true, after - 2, torn)
  }

  /** What is found after a restart. */
  function Found(d: Disk, c: Crash): Files {
    map path | path in d.files :: if c.power && path in d.unsynced then Cut(d.files[path], c.kept) else d.files[path]
  }

  function AfterCrash(d: Disk, config: string, line: string, c: Crash): Files {
    Found(AfterSave(d, config, line, c.after, c.torn), c)
  }

  class FileSystem {
    var disk: Disk
    /** Whole file operations left before everything stops, and how the next write is torn. */
    var budget: nat
    var torn: int

    constructor (initial: Disk, budget: nat, torn: int)
      ensures disk == initial && this.budget == budget && this.torn == torn
    {
      disk, this.budget, this.torn := initial, budget, torn;
    }

    method Write(path: string, content: string, sync: bool) returns (ok: bool)
      modifies this
      ensures torn == old(torn) && ok == (old(budget) > 0)
      ensures ok ==> disk == Written(old(disk), path, content, sync) && budget == old(budget) - 1
      ensures !ok ==> disk == TornWrite(old(disk), path, content, torn) && budget == 0
    {
      if budget == 0 {
        if torn >= 0 { disk := Disk(disk.files[path := Cut(content, torn)], disk.unsynced + {path}); }
        return false;
      }
      disk := Disk(disk.files[path := content], disk.unsynced + {path});
      if sync { disk := disk.(unsynced := disk.unsynced - {path}); }
      assert sync ==> disk.unsynced == old(disk.unsynced) - {path};
      budget := budget - 1;
      return true;
    }

    method Rename(from: string, to: string) returns (ok: bool)
      requires from in disk.files
      modifies this
      ensures torn == old(torn) && ok == (old(budget) > 0)
      ensures ok ==> disk == Renamed(old(disk), from, to) && budget == old(budget) - 1
      ensures !ok ==> disk == old(disk) && budget == 0
    {
      if budget == 0 { return false; }
      disk := Renamed(disk, from, to);
      budget := budget - 1;
      return true;
    }

    /** The write of the config, which is not synced, and of the keyring and the sync cache, which are. */
    method Replace(tmp: string, path: string, content: string, sync: bool) returns (ok: bool)
      modifies this
      ensures torn == old(torn) && ok == (old(budget) >= 2)
      ensures disk == AfterReplace(old(disk), tmp, path, content, sync, old(budget), old(torn))
      ensures budget == if ok then old(budget) - 2 else 0
    {
      ok := Write(tmp, content, sync);
      if !ok { return; }
      ok := Rename(tmp, path);
    }

    method SaveLogin(config: string, line: string) returns (ok: bool)
      modifies this
      ensures ok == (old(budget) >= 4)
      ensures disk == AfterSave(old(disk), config, line, old(budget), old(torn))
    {
      ok := Replace(CONFIG_TMP, CONFIG, config, false);
      if !ok { return; }
      ok := Replace(KEYRING_TMP, KEYRING, line, true);
    }
  }

  // ---------- what a crash can leave ----------

  predicate Same(a: Files, b: Files, path: string) {
    (path in a <==> path in b) && (path in a ==> a[path] == b[path])
  }

  predicate Holds(files: Files, path: string, content: string) { path in files && files[path] == content }

  /** `logged_in` */
  predicate LoggedIn(files: Files) { CONFIG in files && KEYRING in files }

  lemma NamesDiffer()
    ensures CONFIG != KEYRING && CONFIG != CONFIG_TMP && CONFIG != KEYRING_TMP
    ensures KEYRING != KEYRING_TMP && KEYRING != CONFIG_TMP && CONFIG_TMP != KEYRING_TMP
  {
    assert CONFIG[0] != KEYRING[0] && |CONFIG| != |CONFIG_TMP| && |KEYRING| != |KEYRING_TMP|;
    assert CONFIG_TMP[0] == 'c' && KEYRING_TMP[0] == 'k';
  }

  /** How far a save got, file by file, before anything is lost with the power. */
  lemma SaveProgress(d: Disk, config: string, line: string, after: nat, torn: int)
    ensures var r := AfterSave(d, config, line, after, torn);
            && (if after < 2 then Same(d.files, r.files, CONFIG) && (CONFIG in r.unsynced <==> CONFIG in d.unsynced)
                else Holds(r.files, CONFIG, config) && CONFIG in r.unsynced)
            && (if after < 4 then Same(d.files, r.files, KEYRING) && (KEYRING in r.unsynced <==> KEYRING in d.unsynced)
                else Holds(r.files, KEYRING, line) && KEYRING !in r.unsynced)
  {
    NamesDiffer();
  }

  /** A completed save leaves neither temporary file. */
  lemma NoLeftovers(d: Disk, config: string, line: string, c: Crash)
    requires c.after >= 4
    ensures "config.json.tmp" !in AfterCrash(d, config, line, c) && "keyring.tmp" !in AfterCrash(d, config, line, c)
  {
    NamesDiffer();
  }

  /** The keyring survives everything: at every crash point, power losses included, it is wholly
      the old one or wholly the new one, and it is never left unsynced. */
  lemma KeyringIsWhole(d: Disk, config: string, line: string, c: Crash)
    requires KEYRING !in d.unsynced
    ensures var found := AfterCrash(d, config, line, c);
            && (if c.after < 4 then Same(d.files, found, "keyring") else Holds(found, "keyring", line))
            && KEYRING !in AfterSave(d, config, line, c.after, c.torn).unsynced
  {
    hide AfterSave;
    SaveProgress(d, config, line, c.after, c.torn);
  }

  /** At every point where the process can die, config and keyring are each wholly old or wholly
      new, the keyring is new only once the config is, and nothing else changes but the two
      temporary files. */
  lemma SaveIsOrderly(d: Disk, config: string, line: string, c: Crash)
    requires !c.power
    ensures var found := AfterCrash(d, config, line, c);
            && (Same(d.files, found, CONFIG) || Holds(found, CONFIG, config))
            && (Same(d.files, found, KEYRING) || (Holds(found, KEYRING, line) && Holds(found, CONFIG, config)))
            && (forall path :: path !in {CONFIG, CONFIG_TMP, KEYRING, KEYRING_TMP} ==> Same(d.files, found, path))
            && (c.after >= 4 ==> Holds(found, CONFIG, config) && Holds(found, KEYRING, line))
  {
    hide AfterSave;
    SaveProgress(d, config, line, c.after, c.torn);
    OthersUntouched(d, config, line, c.after, c.torn);
    forall path | path !in {CONFIG, CONFIG_TMP, KEYRING, KEYRING_TMP} ensures Same(d.files, AfterCrash(d, config, line, c), path) {
      assert Same(d.files, AfterSave(d, config, line, c.after, c.torn).files, path);
    }
  }

  lemma OthersUntouched(d: Disk, config: string, line: string, after: nat, torn: int)
    ensures forall path :: path !in {CONFIG, CONFIG_TMP, KEYRING, KEYRING_TMP} ==>
              Same(d.files, AfterSave(d, config, line, after, torn).files, path)
  {
    NamesDiffer();
  }

  /** The config is not synced before it is renamed into place. Once it is there, it is found
      whole exactly when the power stays on or enough of it had reached the disk; before, the old
      one is, unless that one was still unsynced and is cut. */
  lemma ConfigIsWholeIff(d: Disk, config: string, line: string, c: Crash)
    ensures var found := AfterCrash(d, config, line, c);
            if c.after >= 2 then
              "config.json" in found && (found["config.json"] == config <==> !c.power || |config| <= c.kept)
            else
              Same(d.files, found, CONFIG) <==>
                !c.power || CONFIG !in d.files || CONFIG !in d.unsynced || |d.files[CONFIG]| <= c.kept
  {
    hide AfterSave;
    SaveProgress(d, config, line, c.after, c.torn);
  }

  /** Both files old, or both new. */
  predicate Whole(before: Files, found: Files, config: string, line: string) {
    (Same(before, found, CONFIG) && Same(before, found, KEYRING)) || (Holds(found, CONFIG, config) && Holds(found, KEYRING, line))
  }

  /** From an empty state a logged-in state is a whole login, unless the power went while the
      config had not reached the disk. */
  lemma FirstLoginIsWholeIff(d: Disk, config: string, line: string, c: Crash)
    requires CONFIG !in d.files && KEYRING !in d.files && KEYRING !in d.unsynced
    ensures var found := AfterCrash(d, config, line, c);
            && (LoggedIn(found) <==> c.after >= 4)
            && (LoggedIn(found) ==>
                  Holds(found, KEYRING, line) && (Holds(found, CONFIG, config) <==> !c.power || |config| <= c.kept))
  {
    hide AfterCrash;
    KeyringIsWhole(d, config, line, c);
    ConfigIsWholeIff(d, config, line, c);
    if c.after < 4 { assert Same(d.files, AfterCrash(d, config, line, c), KEYRING); }
  }

  /** No dying process ever leaves a logged-in state with the new config beside the old keyring
      exactly when there is no old keyring, or the config or the keyring does not change. */
  lemma NeverTornIff(d: Disk, config: string, line: string)
    ensures (forall c: Crash :: !c.power && LoggedIn(AfterCrash(d, config, line, c)) ==>
               Whole(d.files, AfterCrash(d, config, line, c), config, line))
            <==> KEYRING !in d.files || Holds(d.files, CONFIG, config) || Holds(d.files, KEYRING, line)
  {
    hide AfterCrash;
    if KEYRING !in d.files || Holds(d.files, CONFIG, config) || Holds(d.files, KEYRING, line) {
      forall c: Crash | !c.power && LoggedIn(AfterCrash(d, config, line, c))
        ensures Whole(d.files, AfterCrash(d, config, line, c), config, line)
      {
        SaveIsOrderly(d, config, line, c);
      }
    } else {
      var between := Crash(2, -1, false, 0);
      BetweenRenames(d, config, line);
      assert LoggedIn(AfterCrash(d, config, line, between));
    }
  }

  lemma BetweenRenames(d: Disk, config: string, line: string)
    ensures var found := AfterCrash(d, config, line, Crash(2, -1, false, 0));
            Holds(found, CONFIG, config) && Same(d.files, found, KEYRING)
  {
    hide AfterSave;
    SaveProgress(d, config, line, 2, -1);
  }

  /** A power loss can leave a logged-in state with an empty config, even after a save that
      reported success on an empty state. */
  lemma PowerLossEmptiesConfig(d: Disk, config: string, line: string)
    requires CONFIG !in d.files && KEYRING !in d.files && KEYRING !in d.unsynced
    ensures var found := AfterCrash(d, config, line, Crash(4, -1, true, 0));
            LoggedIn(found) && Holds(found, CONFIG, "") && Holds(found, KEYRING, line)
  {
    hide AfterSave;
    SaveProgress(d, config, line, 4, -1);
  }
}
