/**
 * The backup script (scripts/backup-db.js): the backup file name built from
 * the ISO time, and the retention rule that keeps the five most recent
 * backups in the backups directory and deletes the older ones.
 *
 * A directory is the sequence of its entries, each a name and a modification
 * time in milliseconds, in the order the directory lists them.
 */
module Backup {
  import opened Sequences
  import opened Text

  const BACKUP_PREFIX: string := "webhooks-backup-"

  const BACKUP_SUFFIX: string := ".db"

  /** How many of the most recent backups the cleanup keeps. */
  const BACKUPS_KEPT: nat := 5

  datatype BackupFile = BackupFile(name: string, mtime: int)

  /** The names the cleanup treats as backups: the backup prefix, anything, then the `.db` suffix. */
  predicate IsBackupName(name: string) {
    StartsWith(name, BACKUP_PREFIX) && EndsWith(name, BACKUP_SUFFIX)
  }

  predicate IsBackupFile(f: BackupFile) {
    IsBackupName(f.name)
  }

  function MTime(f: BackupFile): int {
    f.mtime
  }

  function FileName(f: BackupFile): string {
    f.name
  }

  /** No two entries of a directory listing share a name, as in a real directory. */
  predicate DistinctNames(files: seq<BackupFile>) {
    DistinctBy(files, FileName)
  }

  /** In a listing with distinct names, a name identifies its entry. */
  lemma SameNameSameFile(files: seq<BackupFile>, a: BackupFile, b: BackupFile)
    requires DistinctNames(files) && a in files && b in files && a.name == b.name
    ensures a == b
  {
    var i :| 0 <= i < |files| && files[i] == a;
    var j :| 0 <= j < |files| && files[j] == b;
    assert FileName(files[i]) == FileName(files[j]);
  }

  lemma DistinctNamesNoDuplicates(files: seq<BackupFile>)
    requires DistinctNames(files)
    ensures NoDuplicates(files)
  {
    forall i, j | 0 <= i < j < |files| ensures files[i] != files[j] {
      assert FileName(files[i]) != FileName(files[j]);
    }
  }

  // ---------------------------------------------------------------- naming

  function FileSafeChar(c: char): char {
    if c == ':' || c == '.' then '-' else c
  }

  /** The ISO time made safe for a file name: every colon and dot becomes a dash, everything else stays. */
  function FileSafeTimestamp(iso: string): (r: string)
    ensures |r| == |iso|
    ensures forall i :: 0 <= i < |iso| && iso[i] != ':' && iso[i] != '.' ==> r[i] == iso[i]
    ensures forall i :: 0 <= i < |iso| && (iso[i] == ':' || iso[i] == '.') ==> r[i] == '-'
    ensures ':' !in r && '.' !in r
  {
    seq(|iso|, i requires 0 <= i < |iso| => FileSafeChar(iso[i]))
  }

  /**
   * The name `backupDatabase` gives a new backup. It contains no colon, and
   * it is one of the names the cleanup treats as a backup.
   */
  function BackupFilename(iso: string): (name: string)
    ensures IsBackupName(name)
    ensures ':' !in name
    ensures |name| == |BACKUP_PREFIX| + |iso| + |BACKUP_SUFFIX|
    ensures name[|BACKUP_PREFIX|..|name| - |BACKUP_SUFFIX|] == FileSafeTimestamp(iso)
  {
    var stamp := FileSafeTimestamp(iso);
    var name := BACKUP_PREFIX + stamp + BACKUP_SUFFIX;
    assert name[|name| - |BACKUP_SUFFIX|..] == BACKUP_SUFFIX;
    assert name[|BACKUP_PREFIX|..|name| - |BACKUP_SUFFIX|] == stamp;
    assert forall i :: 0 <= i < |name| ==> name[i] != ':' by {
      forall i | 0 <= i < |name| ensures name[i] != ':' {
        if i < |BACKUP_PREFIX| {
          assert name[i] == BACKUP_PREFIX[i];
        } else if i < |BACKUP_PREFIX| + |stamp| {
          assert name[i] == stamp[i - |BACKUP_PREFIX|];
        } else {
          assert name[i] == BACKUP_SUFFIX[i - |BACKUP_PREFIX| - |stamp|];
        }
      }
    }
    name
  }

  // ------------------------------------------------------------- retention

  /** The backups in a directory, newest first. */
  function Candidates(files: seq<BackupFile>): (r: seq<BackupFile>)
    ensures multiset(r) == multiset(Filter(files, IsBackupFile))
    ensures |r| == |Filter(files, IsBackupFile)|
    ensures forall f :: f in r <==> f in files && IsBackupName(f.name)
    ensures SortedBy(r, MTime, Descending)
  {
    var backups := Filter(files, IsBackupFile);
    var r := SortBy(backups, MTime, Descending);
    assert forall f :: f in r <==> f in backups by {
      forall f ensures f in r <==> f in backups {
        assert f in r <==> f in multiset(r);
        assert f in backups <==> f in multiset(backups);
      }
    }
    r
  }

  /** The backups after the five most recent, in newest-first order: the ones the cleanup deletes. */
  function BackupsToDelete(files: seq<BackupFile>): (r: seq<BackupFile>)
    ensures |r| == Max(0, |Filter(files, IsBackupFile)| - BACKUPS_KEPT)
    ensures forall f :: f in r ==> f in files && IsBackupName(f.name)
  {
    var c := Candidates(files);
    if |c| <= BACKUPS_KEPT then [] else c[BACKUPS_KEPT..]
  }

  /** The backups the cleanup leaves in place. */
  function BackupsKept(files: seq<BackupFile>): seq<BackupFile> {
    var c := Candidates(files);
    c[..Min(BACKUPS_KEPT, |c|)]
  }

  /** In a newest-first order, nothing after position `n` is newer than anything before it. */
  lemma SplitNewestFirst(c: seq<BackupFile>, n: nat)
    requires SortedBy(c, MTime, Descending) && n <= |c|
    ensures forall k, d :: k in c[..n] && d in c[n..] ==> d.mtime <= k.mtime
  {
    forall k, d | k in c[..n] && d in c[n..] ensures d.mtime <= k.mtime {
      var i :| 0 <= i < n && c[..n][i] == k;
      var j :| 0 <= j < |c[n..]| && c[n..][j] == d;
      assert InOrder(MTime(c[i]), MTime(c[n + j]), Descending);
    }
  }

  /**
   * The backups are split between kept and deleted, none lost and none
   * added, and no deleted backup is newer than a kept one.
   */
  lemma KeptAreNewest(files: seq<BackupFile>)
    ensures multiset(BackupsKept(files)) + multiset(BackupsToDelete(files)) == multiset(Filter(files, IsBackupFile))
    ensures forall k, d :: k in BackupsKept(files) && d in BackupsToDelete(files) ==> d.mtime <= k.mtime
  {
    var c := Candidates(files);
    var n := Min(BACKUPS_KEPT, |c|);
    assert BackupsKept(files) == c[..n];
    assert BackupsToDelete(files) == c[n..];
    assert c == c[..n] + c[n..];
    SplitNewestFirst(c, n);
  }

  function Names(files: seq<BackupFile>): set<string> {
    set f | f in files :: f.name
  }

  function NameNotIn(names: set<string>): BackupFile -> bool {
    (f: BackupFile) => f.name !in names
  }

  /** The directory after the cleanup: every entry whose name was not selected for deletion. */
  function AfterCleanup(files: seq<BackupFile>): (r: seq<BackupFile>)
    ensures forall f :: f in files && !IsBackupName(f.name) ==> f in r
    ensures forall f :: f in files && f.name !in Names(BackupsToDelete(files)) ==> f in r
    ensures forall f :: f in r ==> f in files
    ensures forall f :: f in BackupsToDelete(files) ==> f !in r
  {
    Filter(files, NameNotIn(Names(BackupsToDelete(files))))
  }

  lemma CleanupKeepsDistinctNames(files: seq<BackupFile>)
    requires DistinctNames(files)
    ensures DistinctNames(AfterCleanup(files))
  {
    FilterKeepsDistinctBy(files, NameNotIn(Names(BackupsToDelete(files))), FileName);
  }

  /** With distinct names, no backup is both kept and deleted. */
  lemma KeptNotDoomed(files: seq<BackupFile>)
    requires DistinctNames(files)
    ensures forall f :: f in BackupsKept(files) ==> f !in BackupsToDelete(files)
  {
    DistinctNamesNoDuplicates(files);
    FilterKeepsNoDuplicates(files, IsBackupFile);
    var c := Candidates(files);
    var n := Min(BACKUPS_KEPT, |c|);
    PermutationKeepsNoDuplicates(Filter(files, IsBackupFile), c);
    SplitDisjoint(c, n);
    assert BackupsKept(files) == c[..n];
    assert BackupsToDelete(files) == c[n..];
  }

  /**
   * In a directory with distinct names the cleanup removes exactly the
   * doomed backups: every kept backup remains, and the backups that remain
   * are the kept ones.
   */
  lemma CleanupKeepsExactlyKept(files: seq<BackupFile>)
    requires DistinctNames(files)
    ensures forall f :: f in BackupsKept(files) ==> f in AfterCleanup(files)
    ensures forall f :: f in AfterCleanup(files) && IsBackupFile(f) ==> f in BackupsKept(files)
  {
    var c := Candidates(files);
    var n := Min(BACKUPS_KEPT, |c|);
    var kept, doomed := BackupsKept(files), BackupsToDelete(files);
    assert kept == c[..n] && doomed == c[n..];
    assert c == kept + doomed;
    KeptNotDoomed(files);
    forall f | f in kept ensures f in AfterCleanup(files) {
      assert f in c;
      forall d | d in doomed ensures d.name != f.name {
        if d.name == f.name {
          SameNameSameFile(files, d, f);
        }
      }
      assert f.name !in Names(doomed);
    }
    forall f | f in AfterCleanup(files) && IsBackupFile(f) ensures f in kept {
      assert f !in doomed;
      assert f in c;
    }
  }

  /** With five backups or fewer, the cleanup deletes nothing. */
  lemma FewBackupsDeleteNothing(files: seq<BackupFile>)
    requires |Filter(files, IsBackupFile)| <= BACKUPS_KEPT
    ensures AfterCleanup(files) == files
  {
    assert BackupsToDelete(files) == [];
    assert Names([]) == {};
    FilterKeepsAll(files, NameNotIn({}));
  }

  /** The directory with a fresh copy `name` taken at `now`; a copy onto an existing name replaces it. */
  function WithCopy(files: seq<BackupFile>, name: string, now: int): (r: seq<BackupFile>)
    ensures BackupFile(name, now) in r
    ensures forall f :: f in r && f.name != name ==> f in files
    ensures forall f :: f in files && f.name != name ==> f in r
  {
    Filter(files, NameNotIn({name})) + [BackupFile(name, now)]
  }

  /** The copy replaces any entry of its name, so names stay distinct. */
  lemma WithCopyKeepsDistinctNames(files: seq<BackupFile>, name: string, now: int)
    requires DistinctNames(files)
    ensures DistinctNames(WithCopy(files, name, now))
  {
    var rest := Filter(files, NameNotIn({name}));
    var copy := BackupFile(name, now);
    FilterKeepsDistinctBy(files, NameNotIn({name}), FileName);
    var r := rest + [copy];
    forall i, j | 0 <= i < j < |r| ensures FileName(r[i]) != FileName(r[j]) {
      assert r[i] == rest[i];
      if j < |rest| {
        assert r[j] == rest[j];
      } else {
        assert rest[i] in rest;
      }
    }
  }

  /** In a newest-first order, a backup strictly newer than all others, occurring once, comes first. */
  lemma NewestComesFirst(c: seq<BackupFile>, b: BackupFile, k: nat)
    requires SortedBy(c, MTime, Descending)
    requires k < |c| && c[k] == b && multiset(c)[b] == 1
    requires forall f :: f in c && f != b ==> f.mtime < b.mtime
    ensures k == 0
  {
    if k > 0 {
      assert InOrder(MTime(c[0]), MTime(c[k]), Descending);
      assert c[0] == b;
      TwoPositions(c, 0, k);
    }
  }

  /** A backup strictly newer than every other entry is not among those the cleanup deletes. */
  lemma NewestNotDeleted(rest: seq<BackupFile>, b: BackupFile)
    requires IsBackupFile(b)
    requires forall f :: f in rest ==> f.mtime < b.mtime
    ensures b !in BackupsToDelete(rest + [b])
  {
    var files := rest + [b];
    FilterAppend(rest, [b], IsBackupFile);
    assert [b][1..] == [];
    var backups := Filter(files, IsBackupFile);
    assert backups == Filter(rest, IsBackupFile) + [b];
    assert b !in Filter(rest, IsBackupFile);
    var c := Candidates(files);
    assert multiset(c)[b] == 1;
    var doomed := BackupsToDelete(files);
    forall j | 0 <= j < |doomed| ensures doomed[j] != b {
      if doomed[j] == b {
        NewestComesFirst(c, b, BACKUPS_KEPT + j);
      }
    }
  }

  /**
   * A backup stamped later than every file already in the directory is
   * among the five most recent, so the cleanup that follows keeps it.
   */
  lemma FreshBackupSurvives(files: seq<BackupFile>, iso: string, now: int)
    requires forall f :: f in files ==> f.mtime < now
    ensures BackupFile(BackupFilename(iso), now) in AfterCleanup(WithCopy(files, BackupFilename(iso), now))
  {
    var name := BackupFilename(iso);
    var b := BackupFile(name, now);
    var rest := Filter(files, NameNotIn({name}));
    NewestNotDeleted(rest, b);
    var doomed := BackupsToDelete(rest + [b]);
    assert name !in Names(doomed) by {
      forall f | f in doomed ensures f.name != name {
        assert f in rest + [b];
        assert f != b;
      }
    }
  }

  lemma RemovedNone(files: seq<BackupFile>, doomed: seq<BackupFile>)
    ensures Filter(files, NameNotIn(Names(doomed[..0]))) == files
  {
    assert Names(doomed[..0]) == {};
    FilterKeepsAll(files, NameNotIn({}));
  }

  /** Removing the entry named like `doomed[i]` extends the removal of the first `i` names by one. */
  lemma RemoveOneMore(files: seq<BackupFile>, doomed: seq<BackupFile>, i: nat)
    requires i < |doomed|
    ensures Filter(Filter(files, NameNotIn(Names(doomed[..i]))), NameNotIn({doomed[i].name}))
         == Filter(files, NameNotIn(Names(doomed[..i + 1])))
  {
    assert Names(doomed[..i + 1]) == Names(doomed[..i]) + {doomed[i].name} by {
      assert doomed[..i + 1] == doomed[..i] + [doomed[i]];
    }
    FilterTwice(files, NameNotIn(Names(doomed[..i])), NameNotIn({doomed[i].name}),
                NameNotIn(Names(doomed[..i + 1])));
  }

  /** The backups directory, and the script's two operations on it. */
  class BackupDirectory {
    var files: seq<BackupFile>

    ghost predicate Valid()
      reads this
    {
      DistinctNames(files)
    }

    constructor (listing: seq<BackupFile>)
      requires DistinctNames(listing)
      ensures Valid()
      ensures files == listing
    {
      files := listing;
    }

    /** `cleanupOldBackups`: deletes, one by one, the backups after the five most recent. */
    method CleanupOldBackups() returns (removed: nat)
      requires Valid()
      modifies this
      ensures Valid()
      ensures files == AfterCleanup(old(files))
      ensures removed == |BackupsToDelete(old(files))|
    {
      var doomed := BackupsToDelete(files);
      ghost var original := files;
      RemovedNone(original, doomed);
      var i := 0;
      while i < |doomed|
        invariant 0 <= i <= |doomed|
        invariant files == Filter(original, NameNotIn(Names(doomed[..i])))
      {
        RemoveOneMore(original, doomed, i);
        files := Filter(files, NameNotIn({doomed[i].name}));
        i := i + 1;
      }
      assert doomed[..i] == doomed;
      CleanupKeepsDistinctNames(original);
      removed := |doomed|;
    }

    /**
     * `backupDatabase`: when the database file exists, copies it into the
     * directory under `BackupFilename(iso)` at time `now`, then runs the
     * cleanup; when it does not, changes nothing.
     */
    method BackupDatabase(dbExists: bool, iso: string, now: int) returns (removed: nat)
      requires Valid()
      modifies this
      ensures Valid()
      ensures !dbExists ==> files == old(files) && removed == 0
      ensures dbExists ==>
        var copied := WithCopy(old(files), BackupFilename(iso), now);
        files == AfterCleanup(copied) && removed == |BackupsToDelete(copied)|
    {
      if !dbExists {
        removed := 0;
        return;
      }
      WithCopyKeepsDistinctNames(files, BackupFilename(iso), now);
      files := WithCopy(files, BackupFilename(iso), now);
      removed := CleanupOldBackups();
    }
  }
}
