/**
 * The front end's image-upload hook: it checks the chosen file's type and size, sends the
 * bytes to `save_user_image`, and keeps a preview URL and an "uploading" flag as React state.
 */
module ImageUpload {
  import opened Wrappers
  import opened Text
  import opened Settings
  import Commands

  /** The browser `File`: its MIME type and its bytes (`file.size` is their count). */
  datatype File = File(mime: string, bytes: Bytes)

  const ImagePrefix := "image/"
  const MaxSize := 5 * 1024 * 1024
  const NotImageError := "Por favor, selecione apenas arquivos de imagem"
  const TooLargeError := "A imagem deve ter no máximo 5MB"

  /** The two checks made before anything changes: an `image/` type first, then at most 5 MiB. */
  function CheckFile(f: File): (r: Result<Unit, string>)
    ensures r.Ok? <==> StartsWith(f.mime, ImagePrefix) && |f.bytes| <= MaxSize
    ensures !StartsWith(f.mime, ImagePrefix) ==> r == Err(NotImageError)
    ensures StartsWith(f.mime, ImagePrefix) && |f.bytes| > MaxSize ==> r == Err(TooLargeError)
  {
    if !StartsWith(f.mime, ImagePrefix) then Err(NotImageError)
    else if |f.bytes| > MaxSize then Err(TooLargeError)
    else Ok(Unit)
  }

  /** The size limit is inclusive: exactly 5 MiB passes, one byte more does not. */
  lemma SizeLimitInclusive(mime: string, a: Bytes, b: Bytes)
    requires StartsWith(mime, ImagePrefix)
    requires |a| == 5242880 && |b| == 5242881
    ensures CheckFile(File(mime, a)) == Ok(Unit)
    ensures CheckFile(File(mime, b)) == Err(TooLargeError)
  {
  }

  /** Recording `true` and then `false` appends both, in that order. */
  lemma TwoSteps(trace: seq<bool>)
    ensures trace + [true] + [false] == trace + [true, false]
  {
  }

  /** The hook's state. `uploadingTrace` records every value given to `setIsUploading`. */
  class ImageUploadHook {
    var isUploading: bool
    var imageUrl: Option<string>
    var revoked: seq<string>
    ghost var uploadingTrace: seq<bool>
    const db: SettingsDb

    constructor (db: SettingsDb)
      ensures !isUploading && imageUrl == None && revoked == [] && uploadingTrace == []
      ensures this.db == db
    {
      isUploading := false;
      imageUrl := None;
      revoked := [];
      uploadingTrace := [];
      this.db := db;
    }

    /**
     * `uploadImage`. `ipcError` is the failure of the `save_user_image` call, if any; `url`
     * is the object URL the browser creates for the preview; `now` the back end's clock.
     */
    method UploadImage(file: File, now: string, ipcError: Option<string>, url: string) returns (r: Result<bool, string>)
      modifies this, db
      ensures CheckFile(file).Err? ==>
                && r == Err(CheckFile(file).error)
                && isUploading == old(isUploading) && imageUrl == old(imageUrl)
                && uploadingTrace == old(uploadingTrace) && db.row == old(db.row)
      ensures CheckFile(file).Ok? ==> !isUploading && uploadingTrace == old(uploadingTrace) + [true, false]
      ensures CheckFile(file).Ok? && ipcError.Some? ==>
                r == Err(ipcError.value) && imageUrl == old(imageUrl) && db.row == old(db.row)
      ensures CheckFile(file).Ok? && ipcError.None? ==>
                && r == Ok(true) && imageUrl == Some(url)
                && db.row.Some? && db.row.value.imageBlob == Some(file.bytes)
                && var before := if old(db.row).Some? then old(db.row).value else Default(now);
                   db.row == Some(SavedRow(before, ValidateUserSettings(before).(imageBlob := Some(file.bytes)), now))
      ensures revoked == old(revoked)
    {
      var check := CheckFile(file);
      if check.Err? {
        return Err(check.error);
      }
      ghost var trace := uploadingTrace;
      isUploading := true;
      uploadingTrace := uploadingTrace + [true];
      if ipcError.Some? {
        r := Err(ipcError.value);
      } else {
        SaveRequest(file.bytes, now);
        ShowPreview(url);
        r := Ok(true);
      }
      EndUpload();
      TwoSteps(trace);
    }

    /** `invoke('save_user_image', { imageData })`: the stored row changes, the hook's state does not. */
    method SaveRequest(bytes: Bytes, now: string)
      modifies db
      ensures db.row.Some? && db.row.value.imageBlob == Some(bytes)
      ensures var before := if old(db.row).Some? then old(db.row).value else Default(now);
              db.row == Some(SavedRow(before, ValidateUserSettings(before).(imageBlob := Some(bytes)), now))
      ensures isUploading == old(isUploading) && imageUrl == old(imageUrl)
      ensures uploadingTrace == old(uploadingTrace) && revoked == old(revoked)
    {
      Commands.SaveUserImage(db, bytes, now);
    }

    /** `setImageUrl(url)`. */
    method ShowPreview(url: string)
      modifies this
      ensures imageUrl == Some(url)
      ensures isUploading == old(isUploading) && uploadingTrace == old(uploadingTrace) && revoked == old(revoked)
      ensures db.row == old(db.row)
    {
      imageUrl := Some(url);
    }

    /** The `finally` block: `setIsUploading(false)`. */
    method EndUpload()
      modifies this
      ensures !isUploading && uploadingTrace == old(uploadingTrace) + [false]
      ensures imageUrl == old(imageUrl) && revoked == old(revoked)
      ensures db.row == old(db.row)
    {
      isUploading := false;
      uploadingTrace := uploadingTrace + [false];
    }

    /**
     * `loadUserImage`: a URL for the stored picture when there is a non-empty one, `None`
     * when there is none or the call fails. The hook's own state is left alone.
     */
    method LoadUserImage(now: string, ipcError: Option<string>, url: string) returns (r: Option<string>)
      modifies db
      ensures ipcError.Some? ==> db.row == old(db.row)
      ensures ipcError.None? ==> db.row.Some? && (old(db.row).Some? ==> db.row == old(db.row))
      ensures r.Some? <==> ipcError.None? && db.row.value.imageBlob.Some? && |db.row.value.imageBlob.value| > 0
      ensures r.Some? ==> r == Some(url)
    {
      if ipcError.Some? {
        return None;
      }
      var s := db.GetUserSettings(now);
      if s.imageBlob.Some? && |s.imageBlob.value| > 0 {
        r := Some(url);
      } else {
        r := None;
      }
    }

    /** `clearImage`: revokes the preview URL, if there is one, and forgets it. */
    method ClearImage()
      modifies this
      ensures imageUrl == None
      ensures revoked == old(revoked) + (if old(imageUrl).Some? then [old(imageUrl).value] else [])
      ensures isUploading == old(isUploading) && uploadingTrace == old(uploadingTrace)
    {
      if imageUrl.Some? {
        revoked := revoked + [imageUrl.value];
        imageUrl := None;
      }
    }
  }
}
