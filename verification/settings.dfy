/**
 * The user's project settings: their defaults, the validation applied whenever they are
 * read or saved, and the single settings row (id 1) of the settings database.
 */
module Settings {
  import opened Wrappers
  import opened Text

  type Bytes = seq<bv8>

  datatype UserSettings = UserSettings(
    id: int,
    name: string,
    savePath: string,
    instagramUsername: string,
    websiteUrl: string,
    youtubeChannel: string,
    imagePath: string,
    imageBlob: Option<Bytes>,
    pallet: string,
    phoneNumber: string,
    email: string,
    createdAt: string,
    updatedAt: string)

  const DefaultName := "Meu Projeto"
  const DefaultPalette := "classic"

  /** The palette ids the settings accept. */
  const ValidPalettes: seq<string> :=
    ["classic", "modern", "luxury", "rose_gold", "white_gold", "diamond", "emerald", "ruby", "sapphire", "vintage"]

  const NameLimit := 100
  const InstagramLimit := 50
  const WebsiteLimit := 200
  const YoutubeLimit := 100
  const PhoneLimit := 20
  const EmailLimit := 100

  /** `UserSettings::default`, stamped with the formatted time `now`. */
  function Default(now: string): (s: UserSettings)
    ensures s.id == 1 && s.name == DefaultName && s.pallet == DefaultPalette && s.imageBlob == None
    ensures s.savePath == s.instagramUsername == s.websiteUrl == s.youtubeChannel == ""
    ensures s.imagePath == s.phoneNumber == s.email == ""
    ensures s.createdAt == now && s.updatedAt == now
    ensures ValidateUserSettings(s) == s
  {
    UserSettings(1, DefaultName, "", "", "", "", "", None, DefaultPalette, "", "", now, now)
  }

  predicate IsBlank(s: string) { RustTrim(s) == [] }

  /** The name validation keeps: the default for a blank name, then at most 100 characters. */
  function ValidName(name: string): (r: string)
    ensures |r| <= NameLimit
    ensures IsBlank(name) ==> r == DefaultName
    ensures !IsBlank(name) ==> r == Take(name, NameLimit)
    ensures |name| <= NameLimit && !IsBlank(name) ==> r == name
  {
    Take(if IsBlank(name) then DefaultName else name, NameLimit)
  }

  function ValidPalette(p: string): (r: string)
    ensures r in ValidPalettes
    ensures p in ValidPalettes ==> r == p
    ensures p !in ValidPalettes ==> r == DefaultPalette
  {
    if p in ValidPalettes then p else DefaultPalette
  }

  /**
   * `validate_user_settings`: default name for a blank one, character limits on the text
   * fields, and the palette whitelist. Paths are only inspected, never changed.
   */
  function ValidateUserSettings(s: UserSettings): (r: UserSettings)
    ensures r.name == ValidName(s.name)
    ensures r.instagramUsername == Take(s.instagramUsername, InstagramLimit)
    ensures r.websiteUrl == Take(s.websiteUrl, WebsiteLimit)
    ensures r.youtubeChannel == Take(s.youtubeChannel, YoutubeLimit)
    ensures r.phoneNumber == Take(s.phoneNumber, PhoneLimit)
    ensures r.email == Take(s.email, EmailLimit)
    ensures r.pallet == ValidPalette(s.pallet)
    ensures r.id == s.id && r.savePath == s.savePath && r.imagePath == s.imagePath
    ensures r.imageBlob == s.imageBlob && r.createdAt == s.createdAt && r.updatedAt == s.updatedAt
  {
    s.(name := ValidName(s.name),
       instagramUsername := Take(s.instagramUsername, InstagramLimit),
       websiteUrl := Take(s.websiteUrl, WebsiteLimit),
       youtubeChannel := Take(s.youtubeChannel, YoutubeLimit),
       phoneNumber := Take(s.phoneNumber, PhoneLimit),
       email := Take(s.email, EmailLimit),
       pallet := ValidPalette(s.pallet))
  }

  /** A validated record is within every limit and has an accepted palette. */
  predicate WithinLimits(s: UserSettings) {
    && |s.name| <= NameLimit && |s.instagramUsername| <= InstagramLimit && |s.websiteUrl| <= WebsiteLimit
    && |s.youtubeChannel| <= YoutubeLimit && |s.phoneNumber| <= PhoneLimit && |s.email| <= EmailLimit
    && s.pallet in ValidPalettes
  }

  lemma ValidatedWithinLimits(s: UserSettings)
    ensures WithinLimits(ValidateUserSettings(s))
  {
  }

  /**
   * A name that is not blank but whose first 100 characters are: the first validation
   * cuts it to a blank name, and only a second one replaces it with the default.
   */
  predicate BlankOnlyAfterCut(name: string) {
    !IsBlank(name) && IsBlank(Take(name, NameLimit))
  }

  lemma DefaultNameNotBlank()
    ensures !IsBlank(DefaultName)
  {
    assert !IsRustWhitespace(DefaultName[0]);
    assert !IsBlankBy(DefaultName, IsRustWhitespace);
  }

  /** Validation is idempotent exactly when the name is not blank only after the cut. */
  lemma ValidateIdempotent(s: UserSettings)
    ensures ValidateUserSettings(ValidateUserSettings(s)) == ValidateUserSettings(s) <==> !BlankOnlyAfterCut(s.name)
  {
    var v := ValidateUserSettings(s);
    DefaultNameNotBlank();
    if BlankOnlyAfterCut(s.name) {
      assert v.name == Take(s.name, NameLimit);
      assert ValidName(v.name) == DefaultName;
      assert DefaultName != v.name;
    } else if IsBlank(s.name) {
      assert v.name == DefaultName;
    } else {
      assert v.name == Take(s.name, NameLimit);
      assert !IsBlank(v.name);
    }
  }

  /** The settings database: its single row, created with defaults when missing. */
  class SettingsDb {
    var row: Option<UserSettings>

    constructor (row: Option<UserSettings>)
      ensures this.row == row
    {
      this.row := row;
    }

    /** `connect_settings_db`: inserts the default row when there is none. */
    method Connect(now: string)
      modifies this
      ensures row.Some?
      ensures old(row).Some? ==> row == old(row)
      ensures old(row).None? ==> row == Some(Default(now))
    {
      if row.None? {
        row := Some(Default(now));
      }
    }

    /** `get_user_settings`: the row as validation makes it; the row itself is not rewritten. */
    method GetUserSettings(now: string) returns (s: UserSettings)
      modifies this
      ensures row.Some? && s == ValidateUserSettings(row.value)
      ensures old(row).Some? ==> row == old(row)
      ensures old(row).None? ==> row == Some(Default(now))
      ensures WithinLimits(s)
    {
      Connect(now);
      s := ValidateUserSettings(row.value);
    }

    /** `save_user_settings`: every column but the id and the creation time, validated and stamped `now`. */
    method SaveUserSettings(s: UserSettings, now: string)
      modifies this
      ensures row.Some? && row.value == SavedRow(if old(row).Some? then old(row).value else Default(now), s, now)
      ensures WithinLimits(row.value)
    {
      Connect(now);
      var v := ValidateUserSettings(s);
      row := Some(row.value.(name := v.name, savePath := v.savePath, instagramUsername := v.instagramUsername,
                             websiteUrl := v.websiteUrl, youtubeChannel := v.youtubeChannel,
                             imagePath := v.imagePath, imageBlob := v.imageBlob, pallet := v.pallet,
                             phoneNumber := v.phoneNumber, email := v.email, updatedAt := now));
    }

    /** `update_palette`: writes the id as given, without validation. */
    method UpdatePalette(paletteId: string, now: string)
      modifies this
      ensures row.Some? && row.value.pallet == paletteId && row.value.updatedAt == now
      ensures var before := if old(row).Some? then old(row).value else Default(now);
              row.value == before.(pallet := paletteId, updatedAt := now)
    {
      Connect(now);
      row := Some(row.value.(pallet := paletteId, updatedAt := now));
    }
  }

  /** The row after saving `s` over `current`. */
  function SavedRow(current: UserSettings, s: UserSettings, now: string): (r: UserSettings)
    ensures r.id == current.id && r.createdAt == current.createdAt && r.updatedAt == now
    ensures r.(id := s.id, createdAt := s.createdAt, updatedAt := s.updatedAt) == ValidateUserSettings(s)
    ensures WithinLimits(r)
  {
    ValidateUserSettings(s).(id := current.id, createdAt := current.createdAt, updatedAt := now)
  }

  /** Reading back a saved row gives what was saved, except for a name blank only after the cut. */
  lemma ReadAfterSave(current: UserSettings, s: UserSettings, now: string)
    ensures ValidateUserSettings(SavedRow(current, s, now)) == SavedRow(current, s, now) <==> !BlankOnlyAfterCut(s.name)
  {
    ValidateIdempotent(s);
    var v := ValidateUserSettings(s);
    var r := SavedRow(current, s, now);
    assert ValidateUserSettings(r) == ValidateUserSettings(v).(id := current.id, createdAt := current.createdAt, updatedAt := now);
  }

  /** An invalid palette written by `update_palette` reads back as the default one. */
  lemma PaletteNormalisedOnRead(row: UserSettings, paletteId: string, now: string)
    requires paletteId !in ValidPalettes
    ensures ValidateUserSettings(row.(pallet := paletteId, updatedAt := now)).pallet == DefaultPalette
  {
  }
}
