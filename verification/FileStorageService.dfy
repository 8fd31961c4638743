/** file-storage.service.ts over the disk, with the log of what it did. */
module FileStorageService {
  import opened Wrappers
  import opened FileStorage
  import opened FileStorageRuns

  // What the operations are specified by

  /** Whether an upload is refused, and why. */
  ghost predicate Refuses(file: Upload, types: set<string>, maxSize: nat, e: Option<StorageError>) {
    && (e == Some(InvalidFileType) <==> file.mimeType !in types)
    && (e == Some(FileTooLarge) <==> file.mimeType in types && file.size > maxSize)
    && e != Some(NoSuchDirectory)
  }

  /** The name is added to the directory, which is made if it is missing, and nothing else changes. */
  ghost predicate Adds(disk: Disk, disk': Disk, dir: Dir, name: string) {
    && disk'.Keys == disk.Keys + {dir}
    && (forall d | d in disk && d != dir :: disk'[d] == disk[d])
    && disk'[dir] == (if dir in disk then disk[dir] else {}) + {name}
  }

  ghost predicate NoneBegins(disk: Disk, dir: Dir, id: string) {
    dir in disk ==> forall name | name in disk[dir] :: !(id <= name)
  }

  lemma NothingBegins(disk: Disk, tenant: string, folder: Folder, id: string)
    ensures NoMatch(disk, tenant, folder, id) <==> NoneBegins(disk, Dir(tenant, folder), id)
  {
    if NoMatch(disk, tenant, folder, id) && Dir(tenant, folder) in disk {
      forall name | name in disk[Dir(tenant, folder)] ensures !(id <= name) {
        assert !Matches(disk, tenant, id, Place(folder, name));
      }
    }
  }

  class FileStorageService {
    var disk: Disk
    ghost var log: seq<Step>
    ghost var disks: seq<Disk>

    /** The disk is what the run in the log has led to. */
    ghost predicate Valid()
      reads this
    {
      Run(log, disks) && disks[|log|] == disk
    }

    constructor ()
      ensures Valid() && disk == map[] && log == []
    {
      disk, log, disks := map[], [], [map[]];
    }

    ghost method Record(before: Disk, step: Step)
      requires Run(log, disks) && disks[|log|] == before && Next(before, step, disk)
      modifies this`log, this`disks
      ensures Valid() && log == old(log) + [step]
    {
      log, disks := log + [step], disks + [disk];
    }

    method UploadLogo(tenant: string, file: Upload, id: string) returns (r: Result<string, StorageError>)
      requires Valid()
      modifies this
      ensures Valid() && (r.Err? ==> log == old(log))
      ensures r.Err? ==> disk == old(disk)
      ensures
        var types := {"image/png", "image/jpeg", "image/jpg", "image/svg+xml"};
        Refuses(file, types, 5 * 1024 * 1024, if r.Ok? then None else Some(r.error))
      ensures r.Ok? ==>
        var name := id + "." + Extension(file.originalName);
        && Adds(old(disk), disk, Dir(tenant, Images), name)
        && r.value == "/public/" + tenant + "/images/" + name
        && log == old(log) + [Stored(tenant, Images, id, file.originalName)]
    {
      if file.mimeType !in LOGO_TYPES {
        return Err(InvalidFileType);
      }
      if file.size > 5 * MEGABYTE {
        return Err(FileTooLarge);
      }
      disk := Written(disk, Dir(tenant, Images), FileName(id, file.originalName));
      Record(old(disk), Stored(tenant, Images, id, file.originalName));
      return Ok(Url(tenant, Place(Images, FileName(id, file.originalName))));
    }

    method UploadDocument(tenant: string, file: Upload, id: string) returns (r: Result<string, StorageError>)
      requires Valid()
      modifies this
      ensures Valid() && (r.Err? ==> log == old(log))
      ensures r.Err? ==> disk == old(disk)
      ensures
        var types := {"application/pdf", "image/png", "image/jpeg", "image/jpg"};
        Refuses(file, types, 10 * 1024 * 1024, if r.Ok? then None else Some(r.error))
      ensures r.Ok? ==>
        var name := id + "." + Extension(file.originalName);
        && Adds(old(disk), disk, Dir(tenant, Files), name)
        && r.value == "/public/" + tenant + "/files/" + name
        && log == old(log) + [Stored(tenant, Files, id, file.originalName)]
    {
      if file.mimeType !in DOCUMENT_TYPES {
        return Err(InvalidFileType);
      }
      if file.size > 10 * MEGABYTE {
        return Err(FileTooLarge);
      }
      disk := Written(disk, Dir(tenant, Files), FileName(id, file.originalName));
      Record(old(disk), Stored(tenant, Files, id, file.originalName));
      return Ok(Url(tenant, Place(Files, FileName(id, file.originalName))));
    }

    method UploadFile(tenant: string, file: Upload, allowed: set<string>, maxSize: nat, category: Category, id: string)
        returns (r: Result<string, StorageError>)
      requires Valid()
      modifies this
      ensures Valid() && (r.Err? ==> log == old(log))
      ensures r.Err? ==> disk == old(disk)
      ensures Refuses(file, allowed, maxSize, if r.Ok? then None else Some(r.error))
      ensures r.Ok? ==>
        var folder := if category.Logo? then Images else Files;
        var name := id + "." + Extension(file.originalName);
        && Adds(old(disk), disk, Dir(tenant, folder), name)
        && r.value == (if category.Logo? then "/public/" + tenant + "/images/" + name
                       else "/public/" + tenant + "/files/" + name)
        && log == old(log) + [Stored(tenant, folder, id, file.originalName)]
    {
      if file.mimeType !in allowed {
        return Err(InvalidFileType);
      }
      if file.size > maxSize {
        return Err(FileTooLarge);
      }
      var folder := if category.Logo? then Images else Files;
      disk := Written(disk, Dir(tenant, folder), FileName(id, file.originalName));
      Record(old(disk), Stored(tenant, folder, id, file.originalName));
      return Ok(Url(tenant, Place(folder, FileName(id, file.originalName))));
    }

    /** readdir(dir).find(startsWith), over the names in any order. */
    method FindByPrefix(dir: Dir, id: string) returns (found: Option<string>)
      requires dir in disk
      ensures found.Some? ==> found.value in disk[dir] && id <= found.value
      ensures found.None? ==> forall name | name in disk[dir] :: !(id <= name)
    {
      var left := disk[dir];
      while left != {}
        invariant left <= disk[dir]
        invariant forall name | name in disk[dir] :: name in left || !(id <= name)
        decreases |left|
        modifies {}
      {
        var name :| name in left;
        if id <= name {
          return Some(name);
        }
        left := left - {name};
      }
      return None;
    }

    method DeleteFile(tenant: string, id: string, folder: Folder) returns (r: Result<(), StorageError>)
      requires Valid()
      modifies this
      ensures Valid() && log == old(log) + [Deleted(tenant, folder, id)]
      ensures r.Err? <==> Dir(tenant, folder) !in old(disk)
      ensures Deletes(old(disk), tenant, folder, id, disk)
      ensures
        var dir := Dir(tenant, folder);
        && disk.Keys == old(disk).Keys && (forall d | d in disk && d != dir :: disk[d] == old(disk)[d])
        && (dir in disk ==>
              if exists name :: name in old(disk)[dir] && id <= name
              then exists name :: name in old(disk)[dir] && id <= name && disk[dir] == old(disk)[dir] - {name}
              else disk[dir] == old(disk)[dir])
    {
      var dir := Dir(tenant, folder);
      if dir !in disk {
        Record(disk, Deleted(tenant, folder, id));
        return Err(NoSuchDirectory);
      }
      var found := FindByPrefix(dir, id);
      if found.Some? {
        assert Matches(disk, tenant, id, Place(folder, found.value));
        disk := Unlinked(disk, dir, found.value);
      }
      Record(old(disk), Deleted(tenant, folder, id));
      return Ok(());
    }

    /** The loop over the two folders. */
    method Search(tenant: string, id: string) returns (found: Option<Place>)
      ensures Answers(disk, tenant, id, found)
    {
      var folders := [Images, Files];
      var i := 0;
      while i < |folders|
        invariant i <= 2
        invariant i >= 1 ==> NoMatch(disk, tenant, Images, id)
        invariant i == 2 ==> NoMatch(disk, tenant, Files, id)
        modifies {}
      {
        if Dir(tenant, folders[i]) in disk {
          var name := FindByPrefix(Dir(tenant, folders[i]), id);
          if name.Some? {
            assert Matches(disk, tenant, id, Place(folders[i], name.value));
            return Some(Place(folders[i], name.value));
          }
        }
        assert NoMatch(disk, tenant, folders[i], id);
        i := i + 1;
      }
      return None;
    }

    /** For an id of the one length, the answer is the log's: where the file was stored, until a delete. */
    method GetFileInfo(tenant: string, id: string) returns (found: Option<Place>)
      requires Valid()
      ensures Answers(disk, tenant, id, found)
      ensures found.Some? ==>
        var dir := Dir(tenant, found.value.folder);
        dir in disk && found.value.name in disk[dir] && id <= found.value.name
      ensures found.None? || found.value.folder.Files? ==> NoneBegins(disk, Dir(tenant, Images), id)
      ensures found.None? ==> NoneBegins(disk, Dir(tenant, Files), id)
      ensures FreshIds(log) && |id| == ID_LENGTH ==> found == Replay(log, tenant, id)
    {
      found := Search(tenant, id);
      NothingBegins(disk, tenant, Images, id);
      NothingBegins(disk, tenant, Files, id);
      if FreshIds(log) && |id| == ID_LENGTH {
        LookupAnswersTheLog(log, disks, tenant, id, found);
      }
    }

    /** A path that is not there is ignored. */
    method DeleteFileByPath(dir: Dir, name: string)
      requires Valid()
      modifies this
      ensures Valid() && log == old(log) + [DeletedByPath(dir, name)]
      ensures disk.Keys == old(disk.Keys)
      ensures forall d | d in disk :: disk[d] == (if d == dir then old(disk)[d] - {name} else old(disk)[d])
    {
      disk := Unlinked(disk, dir, name);
      Record(old(disk), DeletedByPath(dir, name));
    }
  }
}
