/** file-storage.service.ts: files in tenant directories, found again by the beginning of their names. */
module FileStorage {
  import opened Wrappers
  import opened Strings

  datatype Folder = Images | Files
  datatype Dir = Dir(tenant: string, folder: Folder)

  /** The directories that exist and the names in each. */
  type Disk = map<Dir, set<string>>

  datatype Place = Place(folder: Folder, name: string)

  datatype Upload = Upload(originalName: string, mimeType: string, size: nat)

  datatype StorageError = InvalidFileType | FileTooLarge | NoSuchDirectory

  datatype Category = Quote | Invoice | License | Insurance | Misc | Logo

  const MEGABYTE: nat := 1024 * 1024
  const LOGO_TYPES: set<string> := {"image/png", "image/jpeg", "image/jpg", "image/svg+xml"}
  const DOCUMENT_TYPES: set<string> := {"application/pdf", "image/png", "image/jpeg", "image/jpg"}

  /** randomUUID gives 36 characters. */
  const ID_LENGTH: nat := 36

  /** split('.').pop(): a name without a dot is its own extension. */
  function Extension(originalName: string): string {
    var parts := Split(originalName, '.');
    parts[|parts| - 1]
  }

  /** The extension is what follows the last dot. */
  lemma ExtensionFollowsTheLastDot(stem: string, extension: string)
    requires '.' !in extension
    ensures Extension(stem + "." + extension) == extension && Extension(extension) == extension
  {
    SplitEnds(stem, '.', extension);
    SplitPart(extension, '.');
  }

  function FileName(id: string, originalName: string): string {
    id + "." + Extension(originalName)
  }

  function FolderPath(folder: Folder): string {
    if folder.Images? then "/images/" else "/files/"
  }

  function Url(tenant: string, place: Place): string {
    "/public/" + tenant + FolderPath(place.folder) + place.name
  }

  /** mkdir and writeFile. */
  function Written(disk: Disk, dir: Dir, name: string): Disk {
    disk[dir := (if dir in disk then disk[dir] else {}) + {name}]
  }

  function Unlinked(disk: Disk, dir: Dir, name: string): Disk {
    if dir in disk then disk[dir := disk[dir] - {name}] else disk
  }

  /** The name is in the directory and begins with the id. */
  predicate Matches(disk: Disk, tenant: string, id: string, place: Place) {
    Dir(tenant, place.folder) in disk && place.name in disk[Dir(tenant, place.folder)] && id <= place.name
  }

  ghost predicate NoMatch(disk: Disk, tenant: string, folder: Folder, id: string) {
    forall name :: !Matches(disk, tenant, id, Place(folder, name))
  }

  /** What getFileInfo may answer: a match, taken from `images` if it has one. */
  ghost predicate Answers(disk: Disk, tenant: string, id: string, found: Option<Place>) {
    match found
    case Some(place) =>
      && Matches(disk, tenant, id, place)
      && (place.folder.Files? ==> NoMatch(disk, tenant, Images, id))
    case None => NoMatch(disk, tenant, Images, id) && NoMatch(disk, tenant, Files, id)
  }

  /** What deleteFile may do: nothing if no name in the folder matches, else remove one that does. */
  ghost predicate Deletes(disk: Disk, tenant: string, folder: Folder, id: string, after: Disk) {
    if NoMatch(disk, tenant, folder, id) then after == disk
    else
      exists name ::
        Matches(disk, tenant, id, Place(folder, name)) && after == Unlinked(disk, Dir(tenant, folder), name)
  }
}
