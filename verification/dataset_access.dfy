/** The two permission checks of the dataset detail page: may the user
    write to the dataset, and may the user download it. */
module DatasetAccess {

  /** The user's privilege on the dataset (`"READ" | "WRITE" | "NONE"`). */
  datatype AccessLevel = Read | Write | NoAccess

  /** A privilege order: no access, then read, then write. */
  function Rank(level: AccessLevel): nat
  {
    match level
    case NoAccess => 0
    case Read => 1
    case Write => 2
  }

  /** `userHasWriteAccess`. */
  function UserHasWriteAccess(level: AccessLevel): (r: bool)
    ensures r <==> Rank(level) == 2
    ensures r ==> level != NoAccess
  {
    level == Write
  }

  /** `isDownloadAllowed`: owners always; anyone else only when the
      dataset is downloadable and either public or shared with them. */
  function IsDownloadAllowed(isOwner: bool, downloadable: bool, isPublic: bool, level: AccessLevel): (r: bool)
    ensures isOwner ==> r
    ensures !downloadable ==> (r <==> isOwner)
    ensures !isOwner && downloadable && isPublic ==> r
    ensures !isOwner && !isPublic ==> (r <==> downloadable && Rank(level) > 0)
  {
    if isOwner then true
    else downloadable && (isPublic || level != NoAccess)
  }

  /** More privilege, or making the dataset public, never takes the
      download button away. */
  lemma DownloadMonotone(isOwner: bool, downloadable: bool, isPublic: bool, isPublic': bool,
                         level: AccessLevel, level': AccessLevel)
    requires isPublic ==> isPublic'
    requires Rank(level) <= Rank(level')
    ensures IsDownloadAllowed(isOwner, downloadable, isPublic, level)
        ==> IsDownloadAllowed(isOwner, downloadable, isPublic', level')
  {
  }

  /** A writer of a downloadable dataset may download it. */
  lemma WriterMayDownload(isOwner: bool, isPublic: bool, level: AccessLevel)
    requires UserHasWriteAccess(level)
    ensures IsDownloadAllowed(isOwner, true, isPublic, level)
  {
  }

  /** For a non-owner the privilege matters only on a private dataset. */
  lemma PublicIgnoresLevel(downloadable: bool, level: AccessLevel, level': AccessLevel)
    ensures IsDownloadAllowed(false, downloadable, true, level)
        == IsDownloadAllowed(false, downloadable, true, level')
  {
  }
}
