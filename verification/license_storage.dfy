/**
 * The license file in the user's data directory, as one slot. The directory may be
 * unavailable (no data directory, or it cannot be created), the file may be absent,
 * unreadable or unparsable, or hold a license; writes and removals may fail.
 */
module LicenseStorage {
  import opened Wrappers
  import opened LicenseTypes

  datatype LicenseFile = Absent | Corrupt | Present(info: LicenseInfo)

  /** What loading the slot yields, without touching it. */
  function LoadResult(dirAvailable: bool, file: LicenseFile): (r: Result<LicenseInfo, LicenseError>)
    ensures r.Ok? <==> dirAvailable && file.Present?
    ensures r.Ok? ==> r.value == file.info
    ensures r.Err? ==> r.error == (if dirAvailable && file.Absent? then LicenseError.NotActivated
                                   else LicenseError.StorageError)
  {
    if !dirAvailable then Err(LicenseError.StorageError)
    else match file
      case Absent => Err(LicenseError.NotActivated)
      case Corrupt => Err(LicenseError.StorageError)
      case Present(info) => Ok(info)
  }

  class Store {
    /** The license directory exists or can be created. */
    var dirAvailable: bool
    /** Writing or removing the file fails. */
    var readOnly: bool
    var file: LicenseFile

    constructor (dirAvailable: bool, readOnly: bool, file: LicenseFile)
      ensures this.dirAvailable == dirAvailable && this.readOnly == readOnly && this.file == file
    {
      this.dirAvailable := dirAvailable;
      this.readOnly := readOnly;
      this.file := file;
    }

    /** `license_exists`: false when the directory is unavailable. */
    predicate Exists()
      reads this
    {
      dirAvailable && !file.Absent?
    }

    function Loaded(): Result<LicenseInfo, LicenseError>
      reads this
    {
      LoadResult(dirAvailable, file)
    }

    /** `load_license`. */
    method Load() returns (r: Result<LicenseInfo, LicenseError>)
      ensures r == Loaded()
    {
      if !dirAvailable {
        return Err(LicenseError.StorageError);
      }
      match file
      case Absent => r := Err(LicenseError.NotActivated);
      case Corrupt => r := Err(LicenseError.StorageError);
      case Present(info) => r := Ok(info);
    }

    /** `save_license`: on success the slot reads back as `license`; on failure nothing changes. */
    method Save(license: LicenseInfo) returns (r: Result<Unit, LicenseError>)
      modifies this
      ensures dirAvailable == old(dirAvailable) && readOnly == old(readOnly)
      ensures r.Ok? <==> dirAvailable && !readOnly
      ensures r.Ok? ==> file == Present(license) && Loaded() == Ok(license)
      ensures r.Err? ==> r.error == LicenseError.StorageError && file == old(file)
    {
      if !dirAvailable || readOnly {
        return Err(LicenseError.StorageError);
      }
      file := Present(license);
      r := Ok(Unit);
    }

    /** `delete_license`: removing an absent file succeeds. */
    method Delete() returns (r: Result<Unit, LicenseError>)
      modifies this
      ensures dirAvailable == old(dirAvailable) && readOnly == old(readOnly)
      ensures r.Ok? <==> dirAvailable && (old(file).Absent? || !readOnly)
      ensures r.Ok? ==> file == Absent && !Exists() && Loaded() == Err(LicenseError.NotActivated)
      ensures r.Err? ==> r.error == LicenseError.StorageError && file == old(file)
    {
      if !dirAvailable {
        return Err(LicenseError.StorageError);
      }
      if !file.Absent? {
        if readOnly {
          return Err(LicenseError.StorageError);
        }
        file := Absent;
      }
      r := Ok(Unit);
    }
  }
}
