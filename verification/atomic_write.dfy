/**
 * The atomic JSON writer: back up the file to `<file>.bak`, write the new
 * text to `<file>.tmp`, rename it over the file, then drop the backup; on
 * failure remove the temporary file, restore from the backup and re-raise.
 * The three paths are the state; every operating-system call that can fail
 * has a fault flag, so each possible run is one choice of flags.
 */
module AtomicWrite {
  import opened Wrappers

  /** The contents of the file, its backup and its temporary file; `None` when absent. */
  datatype Dir = Dir(main: Option<string>, bak: Option<string>, tmp: Option<string>)

  /**
   * Which steps fail. A `shutil.copy2` that fails may do so before touching
   * its destination (`Cut` is `None`) or after truncating it and writing
   * part of the source (`Cut` is the number of characters written).
   * `partial` is what a failed `json.dump` or close leaves in the temporary
   * file.
   */
  datatype Faults = Faults(
    backupFails: bool,
    backupCut: Option<nat>,
    openFails: bool,
    writeFails: bool,
    partial: string,
    replaceFails: bool,
    unlinkBakFails: bool,
    unlinkTmpFails: bool,
    restoreFails: bool,
    restoreCut: Option<nat>)

  /** The writer either returns or re-raises the error of the failed step. */
  datatype WriteOutcome = Written | Reraised

  /** No step fails. */
  const NoFaults: Faults := Faults(false, None, false, false, "", false, false, false, false, None)

  /** The first `n` characters of `s`, or all of it. */
  function Take(s: string, n: nat): (r: string)
    ensures r <= s
    ensures |r| == if n < |s| then n else |s|
  {
    if n < |s| then s[..n] else s
  }

  /**
   * `shutil.copy2(src, dest)` on the destination's content: the source when
   * the copy works; otherwise the destination as it was, or a prefix of the
   * source when the copy failed after truncating it.
   */
  function CopyOver(src: string, dest: Option<string>, fails: bool, cut: Option<nat>): (r: Option<string>)
    ensures !fails ==> r == Some(src)
    ensures r == dest || (r.Some? && r.value <= src)
    ensures fails && cut.None? ==> r == dest
  {
    if !fails then Some(src)
    else if cut.Some? then Some(Take(src, cut.value))
    else dest
  }

  /**
   * Step 1: an existing file is copied to the backup; a failed copy is only
   * logged. The flag says whether this call made the backup.
   */
  function Backup(d: Dir, f: Faults): (r: (Dir, bool))
    ensures r.1 <==> d.main.Some? && !f.backupFails
    ensures r.1 ==> r.0 == d.(bak := d.main)
    ensures r.0.main == d.main && r.0.tmp == d.tmp
    ensures !r.1 ==> r.0.bak == d.bak || (d.main.Some? && r.0.bak.Some? && r.0.bak.value <= d.main.value)
    ensures !r.1 && f.backupCut.None? ==> r.0 == d
  {
    if d.main.Some? then (d.(bak := CopyOver(d.main.value, d.bak, f.backupFails, f.backupCut)), !f.backupFails)
    else (d, false)
  }

  /**
   * Step 2: open the temporary file, dump the JSON text into it, rename it
   * over the file, then try to delete the backup. `data` is `None` when the
   * value cannot be encoded; then, as when the dump or the close raises for
   * another reason, partial text is left behind.
   */
  function TryWrite(d: Dir, data: Option<string>, f: Faults): (r: (Dir, WriteOutcome))
    ensures r.1 == Written <==> !f.openFails && data.Some? && !f.writeFails && !f.replaceFails
    ensures r.1 == Written ==> r.0.main == data && r.0.tmp == None
    ensures r.1 == Written ==> r.0.bak == (if f.unlinkBakFails then d.bak else None)
    ensures r.1 == Reraised ==> r.0.main == d.main && r.0.bak == d.bak
  {
    if f.openFails then (d, Reraised)
    else if data.None? || f.writeFails then (d.(tmp := Some(f.partial)), Reraised)
    else if f.replaceFails then (d.(tmp := data), Reraised)
    else
      var moved := d.(main := data, tmp := None);
      if moved.bak.Some? && !f.unlinkBakFails then (moved.(bak := None), Written) else (moved, Written)
  }

  /** The first part of the handler: the temporary file is deleted when it exists and the delete works. */
  function DropTemp(d: Dir, f: Faults): (r: Dir)
    ensures r.main == d.main && r.bak == d.bak
    ensures r.tmp == (if d.tmp.Some? && f.unlinkTmpFails then d.tmp else None)
  {
    if d.tmp.Some? && !f.unlinkTmpFails then d.(tmp := None) else d
  }

  /** The second part of the handler: the backup is copied over the file. */
  function Restore(c: Dir, f: Faults): (r: Dir)
    requires c.bak.Some?
    ensures r.bak == c.bak && r.tmp == c.tmp
    ensures !f.restoreFails ==> r.main == c.bak
    ensures f.restoreFails ==> r.main == c.main || (r.main.Some? && r.main.value <= c.bak.value)
  {
    c.(main := CopyOver(c.bak.value, c.main, f.restoreFails, f.restoreCut))
  }

  /**
   * `atomic_write_json` as written: on failure any backup that exists is
   * copied over the file, whether or not this call made it, and even when
   * this call's own backup copy failed part-way.
   */
  function WriteAsWritten(d: Dir, data: Option<string>, f: Faults): (r: (Dir, WriteOutcome))
    ensures r.1 == Written <==> !f.openFails && data.Some? && !f.writeFails && !f.replaceFails
    ensures r.1 == Written ==> r.0.main == data && r.0.tmp == None
    ensures r.1 == Written && !f.unlinkBakFails ==> r.0.bak == None
    ensures r.1 == Written && f.unlinkBakFails ==> r.0.bak == Backup(d, f).0.bak
    ensures r.1 == Reraised && !f.unlinkTmpFails ==> r.0.tmp == None
    ensures r.1 == Reraised ==> r.0.bak == Backup(d, f).0.bak
    ensures r.1 == Reraised && Backup(d, f).0.bak.None? ==> r.0.main == d.main
    ensures r.1 == Reraised && Backup(d, f).0.bak.Some? && !f.restoreFails ==> r.0.main == Backup(d, f).0.bak
    ensures r.1 == Reraised && Backup(d, f).0.bak.Some? && f.restoreFails ==>
      r.0.main == d.main || (r.0.main.Some? && r.0.main.value <= Backup(d, f).0.bak.value)
  {
    var (b, _) := Backup(d, f);
    var (w, out) := TryWrite(b, data, f);
    if out == Written then (w, Written)
    else
      var c := DropTemp(w, f);
      if c.bak.Some? then (Restore(c, f), Reraised) else (c, Reraised)
  }

  /**
   * A backup left behind by an earlier call (its delete failed) is restored
   * over newer content when this call cannot make its own backup and then
   * fails to write.
   */
  lemma StaleBackupRestored()
    ensures var d := Dir(Some("new"), Some("old"), None);
      var f := NoFaults.(backupFails := true, replaceFails := true);
      WriteAsWritten(d, Some("newer"), f) == (Dir(Some("old"), Some("old"), None), Reraised)
  {
  }

  /** How the stale backup of that example arises: a successful write whose backup delete fails. */
  lemma SuccessCanLeaveBackup()
    ensures WriteAsWritten(Dir(Some("old"), None, None), Some("new"), NoFaults.(unlinkBakFails := true))
         == (Dir(Some("new"), Some("old"), None), Written)
  {
  }

  /**
   * A backup copy that fails after writing two characters leaves `ol`; the
   * write then fails and that truncated backup is copied over the file.
   */
  lemma PartialBackupRestored()
    ensures var d := Dir(Some("old"), None, None);
      var f := NoFaults.(backupFails := true, backupCut := Some(2), replaceFails := true);
      WriteAsWritten(d, Some("new"), f) == (Dir(Some("ol"), Some("ol"), None), Reraised)
  {
    assert Take("old", 2) == "ol";
  }

  /**
   * `atomic_write_json` with recovery corrected: only a backup made by this
   * call is copied back.
   */
  function Write(d: Dir, data: Option<string>, f: Faults): (r: (Dir, WriteOutcome))
    ensures r.1 == Written <==> !f.openFails && data.Some? && !f.writeFails && !f.replaceFails
    ensures r.1 == Written ==> r.0.main == data && r.0.tmp == None
    ensures r.1 == Written && !f.unlinkBakFails ==> r.0.bak == None
    ensures r.1 == Written && f.unlinkBakFails ==> r.0.bak == Backup(d, f).0.bak
    ensures r.1 == Reraised && !f.restoreFails ==> r.0.main == d.main
    ensures r.1 == Reraised && f.restoreFails ==>
      r.0.main == d.main || (d.main.Some? && r.0.main.Some? && r.0.main.value <= d.main.value)
    ensures r.1 == Reraised ==> r.0.bak == Backup(d, f).0.bak
    ensures r.1 == Reraised && !f.unlinkTmpFails ==> r.0.tmp == None
  {
    var (b, made) := Backup(d, f);
    var (w, out) := TryWrite(b, data, f);
    if out == Written then (w, Written)
    else
      var c := DropTemp(w, f);
      if made then (Restore(c, f), Reraised) else (c, Reraised)
  }

  /** The corrected writer keeps the file when its own backup copy fails part-way. */
  lemma PartialBackupIgnored()
    ensures var d := Dir(Some("old"), None, None);
      var f := NoFaults.(backupFails := true, backupCut := Some(2), replaceFails := true);
      Write(d, Some("new"), f) == (Dir(Some("old"), Some("ol"), None), Reraised)
  {
    assert Take("old", 2) == "ol";
  }

  /** Whenever the call makes its own backup or no backup exists afterwards, the original and the corrected writer agree. */
  lemma WriteAgreesWithOwnBackup(d: Dir, data: Option<string>, f: Faults)
    requires (d.main.Some? && !f.backupFails) || (d.bak.None? && (d.main.None? || f.backupCut.None?))
    ensures WriteAsWritten(d, data, f) == Write(d, data, f)
  {
  }

  /** Without faults the write replaces the content and leaves neither backup nor temporary file. */
  lemma CleanWrite(d: Dir, text: string)
    ensures Write(d, Some(text), NoFaults) == (Dir(Some(text), None, None), Written)
  {
  }

  /**
   * Whatever fails, the file holds its old content or the complete new
   * text, except when the restore copy itself fails part-way: `copy2`
   * truncates the file first, so a prefix of the old content remains.
   */
  lemma NeverPartial(d: Dir, data: Option<string>, f: Faults)
    ensures var m := Write(d, data, f).0.main;
      || m == d.main
      || (data.Some? && m == data)
      || (f.restoreFails && f.restoreCut.Some? && d.main.Some? && m == Some(Take(d.main.value, f.restoreCut.value)))
  {
  }

  /** A restore that fails after one character leaves the file truncated, in both writers. */
  lemma FailedRestoreTruncates()
    ensures var d := Dir(Some("old"), None, None);
      var f := NoFaults.(replaceFails := true, restoreFails := true, restoreCut := Some(1));
      && Write(d, Some("new"), f).0.main == Some("o")
      && WriteAsWritten(d, Some("new"), f).0.main == Some("o")
  {
    assert Take("old", 1) == "o";
  }
}
