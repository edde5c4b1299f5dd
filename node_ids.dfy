/**
 * The naming convention that stands in for a pairing protocol: the backup of
 * primary `a1` is called `a1b`, and a backup name loses its last letter to
 * give back the primary's name.
 */
module NodeIds {

  /** The id of the backup that belongs to primary `id` (`f"{id}b"`). */
  function BackupId(id: string): (b: string)
    ensures |b| == |id| + 1
    ensures b[..|id|] == id && b[|id|] == 'b'
  {
    id + "b"
  }

  /** Whether `id` can name a backup: it ends in 'b' and is longer than one letter. */
  predicate IsBackupName(id: string) {
    |id| > 1 && id[|id| - 1] == 'b'
  }

  /** The primary a backup name points at (`id[:-1]`). */
  function PrimaryOf(id: string): (p: string)
    requires IsBackupName(id)
    ensures p != "" && BackupId(p) == id
  {
    id[..|id| - 1]
  }

  /** Naming a backup and reading its primary back is the identity on non-empty ids. */
  lemma BackupIdRoundTrip(p: string)
    requires p != ""
    ensures IsBackupName(BackupId(p)) && PrimaryOf(BackupId(p)) == p
  {
  }

  /** Two primaries never share a backup name, and no id is its own backup. */
  lemma BackupIdInjective(p: string, q: string)
    ensures BackupId(p) == BackupId(q) ==> p == q
    ensures BackupId(p) != p
  {
    if BackupId(p) == BackupId(q) {
      assert p == BackupId(p)[..|p|] == BackupId(q)[..|q|] == q;
    }
  }

}
