/**
 * The back end's file commands: the image signature check, saving an item image under a
 * sanitised name, the filters `read_image` applies, the removal of images no item refers
 * to, the retention of database backups, and the two commands that change one field of
 * the user settings.
 */
module Commands {
  import opened Wrappers
  import opened Text
  import opened Settings

  // ---------------------------------------------------------------------------------
  // Image signatures

  const PngSignature: Bytes := [0x89, 0x50, 0x4E, 0x47, 0x0D, 0x0A, 0x1A, 0x0A]
  const JpegSoi: Bytes := [0xFF, 0xD8, 0xFF]
  const GifHeader: Bytes := [0x47, 0x49, 0x46, 0x38]
  const RiffTag: Bytes := [0x52, 0x49, 0x46, 0x46]
  const WebpTag: Bytes := [0x57, 0x45, 0x42, 0x50]

  predicate HasPrefix(data: Bytes, p: Bytes) {
    |p| <= |data| && data[..|p|] == p
  }

  datatype ImageFormat = Png | Jpeg | Gif | WebP

  /** The format's signature opens `data`; WebP also needs its tag at bytes 8..12. */
  predicate Signature(data: Bytes, f: ImageFormat) {
    match f
    case Png => HasPrefix(data, PngSignature)
    case Jpeg => HasPrefix(data, JpegSoi)
    case Gif => HasPrefix(data, GifHeader)
    case WebP => |data| >= 12 && HasPrefix(data, RiffTag) && data[8..12] == WebpTag
  }

  /** `is_valid_image`: at least 8 bytes, opened by one of the four signatures. */
  function IsValidImage(data: Bytes): (ok: bool)
    ensures ok <==> |data| >= 8 && exists f :: Signature(data, f)
    ensures ok ==> data[0] in {0x89, 0xFF, 0x47, 0x52}
  {
    if |data| < 8 then false
    else if HasPrefix(data, PngSignature) then assert Signature(data, Png); true
    else if HasPrefix(data, JpegSoi) then assert Signature(data, Jpeg); true
    else if HasPrefix(data, GifHeader) then assert Signature(data, Gif); true
    else if |data| >= 12 && HasPrefix(data, RiffTag) && data[8..12] == WebpTag then assert Signature(data, WebP); true
    else false
  }

  /** The signatures differ in their first byte, so at most one format matches. */
  lemma SignaturesExclusive(data: Bytes, f: ImageFormat, g: ImageFormat)
    ensures Signature(data, f) && Signature(data, g) ==> f == g
  {
    if Signature(data, f) && Signature(data, g) {
      assert data[0] == FirstByte(f) by { FirstByteOf(data, f); }
      assert data[0] == FirstByte(g) by { FirstByteOf(data, g); }
    }
  }

  function FirstByte(f: ImageFormat): bv8 {
    match f
    case Png => 0x89
    case Jpeg => 0xFF
    case Gif => 0x47
    case WebP => 0x52
  }

  lemma FirstByteOf(data: Bytes, f: ImageFormat)
    requires Signature(data, f)
    ensures data[0] == FirstByte(f)
  {
    match f
    case Png => assert data[..8][0] == PngSignature[0];
    case Jpeg => assert data[..3][0] == JpegSoi[0];
    case Gif => assert data[..4][0] == GifHeader[0];
    case WebP => assert data[..4][0] == RiffTag[0];
  }

  // ---------------------------------------------------------------------------------
  // Item codes and paths

  /** The characters an item code keeps when it becomes a file name. */
  predicate CodeChar(c: char) {
    IsAlphanumeric(c) || c == '-' || c == '_'
  }

  function SanitizeChar(c: char): (d: char)
    ensures CodeChar(d)
    ensures CodeChar(c) ==> d == c
  {
    if CodeChar(c) then c else '_'
  }

  /**
   * The file stem `save_image` derives from an item code: the trimmed code with every
   * character other than a letter, a digit, '-' or '_' replaced by '_'.
   */
  function SanitizeCode(code: string): (r: string)
    ensures |r| == |RustTrim(code)|
    ensures r == [] <==> IsBlank(code)
    ensures forall i :: 0 <= i < |r| ==> r[i] == SanitizeChar(RustTrim(code)[i])
    ensures forall i :: 0 <= i < |r| ==> CodeChar(r[i])
  {
    var t := RustTrim(code);
    seq(|t|, i requires 0 <= i < |t| => SanitizeChar(t[i]))
  }

  /** A sanitised code has no dot and no path separator. */
  lemma SanitizedIsPlainName(code: string)
    ensures '.' !in SanitizeCode(code) && Separator !in SanitizeCode(code)
  {
    CodeCharsArePlain(SanitizeCode(code));
  }

  lemma CodeCharsArePlain(r: string)
    requires forall i :: 0 <= i < |r| ==> CodeChar(r[i])
    ensures '.' !in r && Separator !in r
  {
    forall i | 0 <= i < |r|
      ensures r[i] != '.' && r[i] != Separator
    {
      assert CodeChar(r[i]);
    }
  }

  /** Sanitising a sanitised code changes nothing. */
  lemma SanitizeIdempotent(code: string)
    ensures SanitizeCode(SanitizeCode(code)) == SanitizeCode(code)
  {
    var r := SanitizeCode(code);
    TrimCodeChars(r);
    var r2 := SanitizeCode(r);
    forall i | 0 <= i < |r|
      ensures r2[i] == r[i]
    {
      assert CodeChar(r[i]);
    }
  }

  /** No code character is whitespace, so trimming a sanitised code changes nothing. */
  lemma TrimCodeChars(r: string)
    requires forall i :: 0 <= i < |r| ==> CodeChar(r[i])
    ensures RustTrim(r) == r
  {
    if r != [] {
      CodeCharNotSpace(r[0]);
      CodeCharNotSpace(r[|r| - 1]);
      assert TrimStartBy(r, IsRustWhitespace) == r;
      assert TrimEndBy(r, IsRustWhitespace) == r;
    }
  }

  lemma CodeCharNotSpace(c: char)
    requires CodeChar(c)
    ensures !IsRustWhitespace(c)
  {
  }

  const Separator := '/'

  /** `dir.join(name)`. */
  function Child(dir: string, name: string): string {
    dir + [Separator] + name
  }

  /** `<data dir>/BrilliantPDF`. */
  function AppFolder(dataDir: string): string {
    Child(dataDir, "BrilliantPDF")
  }

  /** `<data dir>/BrilliantPDF/images`. */
  function ImagesFolder(dataDir: string): string {
    Child(AppFolder(dataDir), "images")
  }

  /** Where `save_image` stores the image of an item: always a `.png` name. */
  function ImagePath(dataDir: string, code: string): string {
    Child(ImagesFolder(dataDir), SanitizeCode(code) + ".png")
  }

  /** `set_extension("png.bak")` on the image path. */
  function BackupPath(path: string): string {
    path + ".bak"
  }

  /** The last component of a path: what follows its last separator. */
  function FileName(path: string): (name: string)
    ensures Separator !in name
    ensures |name| <= |path| && name == path[|path| - |name|..]
    ensures |name| == |path| || path[|path| - |name| - 1] == Separator
  {
    if path == [] || path[|path| - 1] == Separator then []
    else FileName(path[..|path| - 1]) + [path[|path| - 1]]
  }

  lemma {:induction false} FileNameOfChild(dir: string, name: string)
    requires Separator !in name
    ensures FileName(Child(dir, name)) == name
    decreases |name|
  {
    if name != [] {
      var init := name[..|name| - 1];
      assert Child(dir, name)[..|Child(dir, name)| - 1] == Child(dir, init);
      FileNameOfChild(dir, init);
      assert init + [name[|name| - 1]] == name;
    }
  }

  function LastIndexOf(s: string, c: char): (i: nat)
    requires c in s
    ensures i < |s| && s[i] == c && c !in s[i + 1..]
  {
    if s[|s| - 1] == c then |s| - 1
    else
      assert c in s[..|s| - 1] by { var k :| 0 <= k < |s| && s[k] == c; assert s[..|s| - 1][k] == c; }
      LastIndexOf(s[..|s| - 1], c)
  }

  /**
   * The extension of a file name: what follows its last dot; none when the name has no
   * dot, when its only dot opens it, or when it is "..".
   */
  function NameExtension(name: string): (e: Option<string>)
    ensures e.Some? ==> '.' !in e.value
    ensures e.Some? ==> |e.value| < |name| - 1 && name[|name| - |e.value| - 1..] == "." + e.value
    ensures e.Some? ==> name[|name| - |e.value|..] == e.value
  {
    if name == ".." || '.' !in name then None
    else
      var i := LastIndexOf(name, '.');
      if i == 0 then None
      else
        var e := name[i + 1..];
        assert name[i..] == "." + e;
        Some(e)
  }

  /** `Path::extension`: the extension of the path's last component. */
  function Extension(path: string): (e: Option<string>)
    ensures e.Some? ==> '.' !in e.value && Separator !in e.value
  {
    var name := FileName(path);
    var e := NameExtension(name);
    if e.Some? then
      NotInSuffix(name, |name| - |e.value|, Separator);
      e
    else e
  }

  lemma NotInSuffix(s: string, k: nat, c: char)
    requires k <= |s| && c !in s
    ensures c !in s[k..]
  {
    forall i | 0 <= i < |s[k..]| ensures s[k..][i] != c {
      assert s[k..][i] == s[k + i];
    }
  }

  /** A file name has no extension exactly when it is "..", has no dot, or has one only at its start. */
  lemma ExtensionAbsent(path: string)
    ensures Extension(path).None? <==>
              var name := FileName(path); name == ".." || '.' !in name || '.' !in name[1..]
  {
    var name := FileName(path);
    assert Extension(path) == NameExtension(name);
    if name != ".." && '.' in name {
      var i := LastIndexOf(name, '.');
      if i != 0 {
        assert name[1..][i - 1] == '.';
      }
    }
  }

  /** The last occurrence of `c` in `a + [c] + b` is the one after `a` when `b` has none. */
  lemma {:induction false} LastIndexAfter(a: string, c: char, b: string)
    requires c !in b
    ensures c in a + [c] + b && LastIndexOf(a + [c] + b, c) == |a|
    decreases |b|
  {
    var s := a + [c] + b;
    assert s[|a|] == c;
    if b != [] {
      var init := b[..|b| - 1];
      assert s[|s| - 1] == b[|b| - 1];
      assert s[..|s| - 1] == a + [c] + init;
      LastIndexAfter(a, c, init);
    }
  }

  /** A name made of a stem without dots, a dot and `ext` has the extension `ext`. */
  lemma ExtensionOfChild(dir: string, stem: string, ext: string)
    requires stem != [] && '.' !in stem && Separator !in stem
    requires '.' !in ext && Separator !in ext
    ensures Extension(Child(dir, stem + "." + ext)) == Some(ext)
  {
    var name := stem + "." + ext;
    assert name == stem + ['.'] + ext;
    FileNameOfChild(dir, name);
    assert Extension(Child(dir, stem + "." + ext)) == NameExtension(name);
    LastIndexAfter(stem, '.', ext);
    assert name != ".." by {
      assert stem[0] != '.';
    }
    assert name[|stem| + 1..] == ext;
  }

  // ---------------------------------------------------------------------------------
  // The file system

  /** A node of the file system: a file with its contents and modification time, or a folder. */
  datatype Node = File(data: Bytes, modified: int) | Folder

  type Tree = map<string, Node>

  /** `path` names an entry directly inside `folder`. */
  predicate IsChild(folder: string, path: string) {
    |path| > |folder| + 1 && path[..|folder| + 1] == folder + [Separator]
    && Separator !in path[|folder| + 1..]
  }

  const EmptyPathError := "Caminho da imagem não pode estar vazio"
  const NotFoundError := "Arquivo de imagem não encontrado"
  const NotAFileError := "Caminho especificado não é um arquivo"
  const UnsupportedPrefix := "Tipo de arquivo não suportado: "
  const NoExtensionError := "Arquivo sem extensão não é suportado"
  const TooLargeError := "Arquivo muito grande (limite: 10MB)"
  const NotAnImageError := "Arquivo não contém uma imagem válida"

  const MaxReadBytes := 10 * 1024 * 1024
  const SupportedExtensions := ["png", "jpg", "jpeg", "gif", "webp"]

  /**
   * `read_image`: a blank path, a missing entry, a folder, a missing or unsupported
   * extension (compared in lower case), more than 10 MiB and contents without an image
   * signature are refused, in that order; otherwise the contents are returned.
   */
  function ReadImage(tree: Tree, path: string): (r: Result<Bytes, string>)
    ensures r.Ok? <==> && !IsBlank(path) && path in tree && tree[path].File?
                       && Extension(path).Some? && LowerAll(Extension(path).value) in SupportedExtensions
                       && |tree[path].data| <= MaxReadBytes && IsValidImage(tree[path].data)
    ensures r.Ok? ==> r.value == tree[path].data
    ensures IsBlank(path) ==> r == Err(EmptyPathError)
    ensures !IsBlank(path) && path !in tree ==> r == Err(NotFoundError)
    ensures !IsBlank(path) && path in tree && tree[path].File? && Extension(path).None? ==> r == Err(NoExtensionError)
    ensures !IsBlank(path) && path in tree && tree[path].File? && Extension(path).Some?
            && LowerAll(Extension(path).value) !in SupportedExtensions
            ==> r == Err(UnsupportedPrefix + LowerAll(Extension(path).value))
    ensures !IsBlank(path) && path in tree && tree[path].Folder? ==> r == Err(NotAFileError)
    ensures !IsBlank(path) && path in tree && tree[path].File? && Extension(path).Some?
            && LowerAll(Extension(path).value) in SupportedExtensions
            ==> (|tree[path].data| > MaxReadBytes ==> r == Err(TooLargeError))
                && (|tree[path].data| <= MaxReadBytes && !IsValidImage(tree[path].data) ==> r == Err(NotAnImageError))
  {
    if IsBlank(path) then Err(EmptyPathError)
    else if path !in tree then Err(NotFoundError)
    else if !tree[path].File? then Err(NotAFileError)
    else
      match Extension(path)
      case None => Err(NoExtensionError)
      case Some(ext) =>
        if LowerAll(ext) !in SupportedExtensions then Err(UnsupportedPrefix + LowerAll(ext))
        else if |tree[path].data| > MaxReadBytes then Err(TooLargeError)
        else if !IsValidImage(tree[path].data) then Err(NotAnImageError)
        else Ok(tree[path].data)
  }

  lemma NotBlankEnding(s: string)
    requires s != [] && !IsRustWhitespace(s[|s| - 1])
    ensures !IsBlank(s)
  {
    assert !IsBlankBy(s, IsRustWhitespace);
  }

  /** A file with a supported extension and an image of at most 10 MiB is read back whole. */
  lemma Readable(tree: Tree, path: string, ext: string)
    requires path in tree && tree[path].File?
    requires !IsBlank(path) && Extension(path) == Some(ext) && LowerAll(ext) in SupportedExtensions
    requires |tree[path].data| <= MaxReadBytes && IsValidImage(tree[path].data)
    ensures ReadImage(tree, path) == Ok(tree[path].data)
  {
  }

  /** A stem without dots or separators followed by `suffix` names a readable image path. */
  lemma ImageName(dir: string, stem: string, ext: string)
    requires stem != [] && '.' !in stem && Separator !in stem
    requires ext != [] && '.' !in ext && Separator !in ext && !IsRustWhitespace(ext[|ext| - 1])
    ensures var path := Child(dir, stem + "." + ext); Extension(path) == Some(ext) && !IsBlank(path)
  {
    var path := Child(dir, stem + "." + ext);
    ExtensionOfChild(dir, stem, ext);
    assert path[|path| - 1] == ext[|ext| - 1];
    NotBlankEnding(path);
  }

  lemma LowerPng()
    ensures LowerAll("PNG") in SupportedExtensions
    ensures LowerAll("png") in SupportedExtensions
  {
    var l := LowerAll("PNG");
    assert l[0] == 'p' && l[1] == 'n' && l[2] == 'g';
    assert l == SupportedExtensions[0];
    var k := LowerAll("png");
    assert k[0] == 'p' && k[1] == 'n' && k[2] == 'g';
    assert k == SupportedExtensions[0];
  }

  /** The extension check ignores case: an upper-case ".PNG" is read like ".png". */
  lemma UpperCaseExtensionAccepted(tree: Tree, dir: string, stem: string, data: Bytes, modified: int)
    requires stem != [] && '.' !in stem && Separator !in stem
    requires |data| <= MaxReadBytes && IsValidImage(data)
    ensures ReadImage(tree[Child(dir, stem + ".PNG") := File(data, modified)], Child(dir, stem + ".PNG")) == Ok(data)
  {
    var path := Child(dir, stem + ".PNG");
    assert Extension(path) == Some("PNG") && !IsBlank(path) by {
      assert stem + ".PNG" == stem + "." + "PNG";
      ImageName(dir, stem, "PNG");
    }
    LowerPng();
    var t := tree[path := File(data, modified)];
    assert path in t && t[path] == File(data, modified);
    Readable(t, path, "PNG");
  }

  /** The path `save_image` writes has the extension "png" and is not blank. */
  lemma ImagePathName(dataDir: string, code: string)
    requires !IsBlank(code)
    ensures Extension(ImagePath(dataDir, code)) == Some("png") && !IsBlank(ImagePath(dataDir, code))
  {
    SanitizedIsPlainName(code);
    PngName(ImagesFolder(dataDir), SanitizeCode(code));
  }

  lemma PngName(dir: string, stem: string)
    requires stem != [] && '.' !in stem && Separator !in stem
    ensures Extension(Child(dir, stem + ".png")) == Some("png") && !IsBlank(Child(dir, stem + ".png"))
  {
    assert stem + ".png" == stem + "." + "png";
    ImageName(dir, stem, "png");
  }

  /** A path that `save_image` produced reads back as the saved image, up to the 10 MiB limit. */
  lemma SavedImageReadable(tree: Tree, dataDir: string, code: string, image: Bytes, modified: int)
    requires !IsBlank(code) && IsValidImage(image) && |image| <= MaxReadBytes
    requires ImagePath(dataDir, code) in tree && tree[ImagePath(dataDir, code)] == File(image, modified)
    ensures ReadImage(tree, ImagePath(dataDir, code)) == Ok(image)
  {
    ImagePathName(dataDir, code);
    LowerPng();
    Readable(tree, ImagePath(dataDir, code), "png");
  }

  const EmptyImageError := "Imagem vazia não pode ser salva"
  const BlankCodeError := "Código do item não pode estar vazio"
  const InvalidFormatError := "Formato de imagem inválido"
  const SaveNoDataDirError := "Erro: Não foi possível obter o diretório de dados"
  const CreateFolderPrefix := "Erro ao criar pasta: "
  const WritePrefix := "Erro ao salvar imagem: "
  const NoDataDirError := "Não foi possível obter o diretório de dados"
  const ImagesDirPrefix := "Erro ao ler diretório de imagens: "
  const BackupDirPrefix := "Erro ao ler diretório de backup: "

  /** Every file directly inside `folder` that no item refers to and that can be removed. */
  function Orphans(tree: Tree, folder: string, dbImages: set<string>, locked: set<string>, readOnly: bool)
    : (s: set<string>)
    ensures forall p :: p in s ==> p in tree && tree[p].File? && IsChild(folder, p)
    ensures forall p :: p in s ==> p !in dbImages && p !in locked
    ensures readOnly ==> s == {}
  {
    if readOnly then {} else
      set p | p in tree && tree[p].File? && IsChild(folder, p) && p !in dbImages && p !in locked
  }

  /** Once the orphans are gone a second cleanup finds none. */
  lemma OrphansGone(tree: Tree, folder: string, dbImages: set<string>, locked: set<string>, readOnly: bool)
    ensures Orphans(tree - Orphans(tree, folder, dbImages, locked, readOnly), folder, dbImages, locked, readOnly) == {}
  {
    var o := Orphans(tree, folder, dbImages, locked, readOnly);
    var again := Orphans(tree - o, folder, dbImages, locked, readOnly);
    assert again <= o;
    assert forall p :: p in again ==> p !in o;
  }

  /** The `.sqlite` files directly inside `dir`. */
  function Backups(tree: Tree, dir: string): (s: set<string>)
    ensures forall p :: p in s ==> p in tree && tree[p].File? && IsChild(dir, p)
  {
    set p | p in tree && tree[p].File? && IsChild(dir, p) && Extension(p) == Some("sqlite")
  }

  /** The modification time recorded for `p`. */
  function Modified(mtime: map<string, int>, p: string): int {
    if p in mtime then mtime[p] else 0
  }

  /** Most recently modified first. */
  predicate NewestOrder(s: seq<string>, mtime: map<string, int>) {
    forall i, j :: 0 <= i < j < |s| ==> Modified(mtime, s[j]) <= Modified(mtime, s[i])
  }

  /** Places `x` in front of the first entry that is not more recent. */
  function InsertNewest(x: string, s: seq<string>, mtime: map<string, int>): (r: seq<string>)
    ensures multiset(r) == multiset(s) + multiset{x}
    ensures |r| == |s| + 1
  {
    if s == [] || Modified(mtime, s[0]) <= Modified(mtime, x) then [x] + s
    else
      assert s == [s[0]] + s[1..];
      [s[0]] + InsertNewest(x, s[1..], mtime)
  }

  lemma {:induction false} InsertOrdered(x: string, s: seq<string>, mtime: map<string, int>)
    requires NewestOrder(s, mtime)
    ensures NewestOrder(InsertNewest(x, s, mtime), mtime)
  {
    if s == [] || Modified(mtime, s[0]) <= Modified(mtime, x) {
      ConsOrdered(x, s, mtime);
    } else {
      var tail := s[1..];
      var rest := InsertNewest(x, tail, mtime);
      InsertOrdered(x, tail, mtime);
      forall z | z in rest
        ensures Modified(mtime, z) <= Modified(mtime, s[0])
      {
        assert z in multiset(rest);
        if z != x {
          var k :| 0 <= k < |tail| && tail[k] == z;
          assert s[k + 1] == z;
        }
      }
      ConsOrdered(s[0], rest, mtime);
    }
  }

  /** An entry at least as recent as everything after it keeps the order. */
  lemma ConsOrdered(y: string, rest: seq<string>, mtime: map<string, int>)
    requires NewestOrder(rest, mtime)
    requires forall z :: z in rest ==> Modified(mtime, z) <= Modified(mtime, y)
    ensures NewestOrder([y] + rest, mtime)
  {
    var r := [y] + rest;
    forall i, j | 0 <= i < j < |r|
      ensures Modified(mtime, r[j]) <= Modified(mtime, r[i])
    {
      assert r[j] == rest[j - 1];
      if i == 0 {
        assert rest[j - 1] in rest;
      } else {
        assert r[i] == rest[i - 1];
      }
    }
  }

  lemma {:induction false} InsertDistinct(x: string, s: seq<string>, mtime: map<string, int>)
    ensures Distinct(s) && x !in s ==> Distinct(InsertNewest(x, s, mtime))
  {
    if Distinct(s) && x !in s {
      var r := InsertNewest(x, s, mtime);
      if s == [] || Modified(mtime, s[0]) <= Modified(mtime, x) {
        forall i, j | 0 <= i < j < |r|
          ensures r[i] != r[j]
        {
          assert r[j] == s[j - 1];
          if i > 0 {
            assert r[i] == s[i - 1];
          }
        }
      } else {
        var tail := s[1..];
        var rest := InsertNewest(x, tail, mtime);
        assert r == [s[0]] + rest;
        assert x !in tail;
        assert s[0] !in tail by {
          forall k | 0 <= k < |tail|
            ensures tail[k] != s[0]
          {
            assert tail[k] == s[k + 1];
          }
        }
        InsertDistinct(x, tail, mtime);
        assert s[0] !in multiset(rest);
        forall i, j | 0 <= i < j < |r|
          ensures r[i] != r[j]
        {
          assert r[j] == rest[j - 1];
          if i > 0 {
            assert r[i] == rest[i - 1];
          } else {
            assert r[j] in multiset(rest);
          }
        }
      }
    }
  }

  /** `sort_by` on the modification time, most recent first: a reordering of `s`. */
  function SortNewest(s: seq<string>, mtime: map<string, int>): (r: seq<string>)
    ensures multiset(r) == multiset(s)
    ensures NewestOrder(r, mtime)
    ensures Distinct(s) ==> Distinct(r)
  {
    if s == [] then []
    else
      assert s == [s[0]] + s[1..];
      var rest := SortNewest(s[1..], mtime);
      InsertOrdered(s[0], rest, mtime);
      InsertDistinct(s[0], rest, mtime);
      assert Distinct(s) ==> Distinct(s[1..]) && s[0] !in multiset(rest) by {
        if Distinct(s) {
          DistinctTail(s);
        }
      }
      InsertNewest(s[0], rest, mtime)
  }

  lemma DistinctTail(s: seq<string>)
    requires s != [] && Distinct(s)
    ensures Distinct(s[1..]) && s[0] !in multiset(s[1..])
  {
    forall k | 0 <= k < |s| - 1
      ensures s[1..][k] != s[0]
    {
      assert s[1..][k] == s[k + 1];
    }
  }

  /**
   * `create_dir_all` of `folder` inside `parent`: an existing folder is accepted as it is; a
   * file in the way fails; a missing folder is created, after its parent when that is
   * missing too. The data directory above `parent` is taken to exist.
   */
  function CreateDirs(tree: Tree, parent: string, folder: string, readOnly: bool): (t: Option<Tree>)
    requires parent != folder
    ensures t.Some? <==> if folder in tree then tree[folder].Folder?
                         else !readOnly && !(parent in tree && tree[parent].File?)
    ensures t.Some? ==> folder in t.value && t.value[folder] == Folder
    ensures t.Some? && folder !in tree ==> parent in t.value && t.value[parent] == Folder
    ensures t.Some? ==> forall p :: p in tree ==> p in t.value && t.value[p] == tree[p]
    ensures t.Some? ==> forall p :: p in t.value ==> p in tree || p == folder || p == parent
    ensures t.Some? && readOnly ==> t.value == tree
  {
    if folder in tree then
      if tree[folder].Folder? then Some(tree) else None
    else if readOnly then None
    else if parent in tree then
      if tree[parent].Folder? then Some(tree[folder := Folder]) else None
    else
      Some(tree[parent := Folder][folder := Folder])
  }

  /**
   * What `save_image` leaves on the disk once its checks pass: the folders exist as
   * `CreateDirs` makes them, a file already at `path` is copied to its backup path (a failed
   * copy is ignored) and `image` is written at `path`. None when the folders cannot be
   * created or the write fails.
   */
  function WriteImage(tree: Tree, parent: string, folder: string, path: string, image: Bytes, now: int, readOnly: bool)
    : (t: Option<Tree>)
    requires |parent| < |folder| < |path|
    ensures t.Some? <==> CreateDirs(tree, parent, folder, readOnly).Some? && !readOnly && !(path in tree && tree[path].Folder?)
    ensures t.Some? <==> && !readOnly && !(folder in tree && tree[folder].File?)
                         && !(folder !in tree && parent in tree && tree[parent].File?)
                         && !(path in tree && tree[path].Folder?)
    ensures t.Some? ==> path in t.value && t.value[path] == File(image, now)
    ensures t.Some? ==> folder in t.value && t.value[folder] == Folder
    ensures t.Some? && folder !in tree ==> parent in t.value && t.value[parent] == Folder
    ensures t.Some? && path in tree && tree[path].File? && !(BackupPath(path) in tree && tree[BackupPath(path)].Folder?)
            ==> BackupPath(path) in t.value && t.value[BackupPath(path)] == File(tree[path].data, now)
    ensures t.Some? ==> forall p :: p in tree && p != folder && p != path && p != BackupPath(path)
                                    ==> p in t.value && t.value[p] == tree[p]
    ensures t.Some? ==> forall p :: p in t.value ==> p in tree || p == parent || p == folder || p == path || p == BackupPath(path)
  {
    var created := CreateDirs(tree, parent, folder, readOnly);
    if created.None? || readOnly || (path in tree && tree[path].Folder?) then None
    else
      var dirs := created.value;
      var bak := BackupPath(path);
      var backedUp :=
        if path in dirs && dirs[path].File? && !(bak in dirs && dirs[bak].Folder?)
        then dirs[bak := File(dirs[path].data, now)]
        else dirs;
      Some(backedUp[path := File(image, now)])
  }

  /** A file system on which the commands act. */
  class Disk {
    var tree: Tree
    /** Writes, copies and removals all fail on a read-only disk. */
    const readOnly: bool

    constructor (tree: Tree, readOnly: bool)
      ensures this.tree == tree && this.readOnly == readOnly
    {
      this.tree := tree;
      this.readOnly := readOnly;
    }

    /**
     * `save_image`: an empty image, a blank code and an image without a known signature are
     * refused before the disk is touched. The image is then written to `ImagePath`, whatever
     * its format, as `WriteImage` describes; folders created before a failed write stay.
     */
    method SaveImage(dataDir: Option<string>, image: Bytes, code: string, now: int, ioError: string)
      returns (r: Result<string, string>)
      modifies this
      ensures image == [] ==> r == Err(EmptyImageError)
      ensures image != [] && IsBlank(code) ==> r == Err(BlankCodeError)
      ensures image != [] && !IsBlank(code) && !IsValidImage(image) ==> r == Err(InvalidFormatError)
      ensures image != [] && !IsBlank(code) && IsValidImage(image) && dataDir.None? ==> r == Err(SaveNoDataDirError)
      ensures image == [] || IsBlank(code) || !IsValidImage(image) || dataDir.None? ==> tree == old(tree)
      ensures image != [] && !IsBlank(code) && IsValidImage(image) && dataDir.Some? ==>
                var dd := dataDir.value;
                var c := CreateDirs(old(tree), AppFolder(dd), ImagesFolder(dd), readOnly);
                var w := WriteImage(old(tree), AppFolder(dd), ImagesFolder(dd), ImagePath(dd, code), image, now, readOnly);
                && (c.None? ==> r == Err(CreateFolderPrefix + ioError) && tree == old(tree))
                && (c.Some? && w.None? ==> r == Err(WritePrefix + ioError) && tree == c.value)
                && (w.Some? ==> r == Ok(ImagePath(dd, code)) && tree == w.value)
      ensures r.Ok? && |image| <= MaxReadBytes ==> ReadImage(tree, r.value) == Ok(image)
    {
      if image == [] {
        return Err(EmptyImageError);
      }
      if IsBlank(code) {
        return Err(BlankCodeError);
      }
      if !IsValidImage(image) {
        return Err(InvalidFormatError);
      }
      if dataDir.None? {
        return Err(SaveNoDataDirError);
      }
      var folder := ImagesFolder(dataDir.value);
      var name := SanitizeCode(code);
      // sanitising keeps the trimmed length, so the source's check for an empty name never fires
      assert name != [];
      var path := Child(folder, name + ".png");
      assert path == ImagePath(dataDir.value, code);
      r := StoreImage(AppFolder(dataDir.value), folder, path, image, now, ioError);
      if r.Err? {
        return;
      }
      if |image| <= MaxReadBytes {
        SavedImageReadable(tree, dataDir.value, code, image, now);
      }
    }

    /**
     * The disk part of `save_image`: `create_dir_all`, then the backup copy, whose failure
     * is ignored, then the write. Folders created before a failed write stay.
     */
    method StoreImage(parent: string, folder: string, path: string, image: Bytes, now: int, ioError: string)
      returns (r: Result<string, string>)
      requires |parent| < |folder| < |path|
      modifies this
      ensures var c := CreateDirs(old(tree), parent, folder, readOnly);
              var w := WriteImage(old(tree), parent, folder, path, image, now, readOnly);
              && (c.None? ==> r == Err(CreateFolderPrefix + ioError) && tree == old(tree))
              && (c.Some? && w.None? ==> r == Err(WritePrefix + ioError) && tree == c.value)
              && (w.Some? ==> r == Ok(path) && tree == w.value)
    {
      var created := CreateDirs(tree, parent, folder, readOnly);
      if created.None? {
        return Err(CreateFolderPrefix + ioError);
      }
      ghost var w := WriteImage(tree, parent, folder, path, image, now, readOnly);
      tree := created.value;
      // the backup copy and the write both fail on a read-only disk or when `path` is a folder
      if readOnly || (path in tree && tree[path].Folder?) {
        return Err(WritePrefix + ioError);
      }
      var bak := BackupPath(path);
      if path in tree && tree[path].File? && !(bak in tree && tree[bak].Folder?) {
        tree := tree[bak := File(tree[path].data, now)];
      }
      tree := tree[path := File(image, now)];
      assert tree == w.value;
      r := Ok(path);
    }

    /**
     * `cleanup_orphaned_images`: removes every file of the images folder whose path no item
     * refers to and returns how many were removed; a missing folder removes nothing.
     */
    method CleanupOrphanedImages(dataDir: Option<string>, dbImages: set<string>, locked: set<string>, ioError: string)
      returns (r: Result<nat, string>)
      modifies this
      ensures dataDir.None? ==> r == Err(NoDataDirError) && tree == old(tree)
      ensures dataDir.Some? && ImagesFolder(dataDir.value) !in old(tree) ==> r == Ok(0) && tree == old(tree)
      ensures dataDir.Some? && ImagesFolder(dataDir.value) in old(tree) && old(tree)[ImagesFolder(dataDir.value)].File?
              ==> r == Err(ImagesDirPrefix + ioError) && tree == old(tree)
      ensures dataDir.Some? && ImagesFolder(dataDir.value) in old(tree) && old(tree)[ImagesFolder(dataDir.value)].Folder?
              ==> var gone := Orphans(old(tree), ImagesFolder(dataDir.value), dbImages, locked, readOnly);
                  r == Ok(|gone|) && tree == old(tree) - gone
      ensures forall p :: p in old(tree) && p in dbImages ==> p in tree && tree[p] == old(tree)[p]
    {
      if dataDir.None? {
        return Err(NoDataDirError);
      }
      var folder := ImagesFolder(dataDir.value);
      if folder !in tree {
        return Ok(0);
      }
      if tree[folder].File? {
        return Err(ImagesDirPrefix + ioError);
      }
      ghost var gone := Orphans(tree, folder, dbImages, locked, readOnly);
      var pending := set p | p in tree && IsChild(folder, p);
      var count := 0;
      ghost var removed: set<string> := {};
      while pending != {}
        invariant forall q :: q in removed <==> q in gone && q !in pending
        invariant tree == old(tree) - removed
        invariant forall q :: q in pending ==> q in old(tree) && IsChild(folder, q)
        invariant count == |removed|
        decreases |pending|
      {
        var p :| p in pending;
        assert p in tree && tree[p] == old(tree)[p];
        assert p in gone <==> tree[p].File? && p !in dbImages && p !in locked && !readOnly;
        if tree[p].File? && p !in dbImages {
          if readOnly || p in locked {
            // the failure is only logged
          } else {
            tree := tree - {p};
            removed := removed + {p};
            count := count + 1;
          }
        }
        pending := pending - {p};
      }
      assert removed == gone;
      r := Ok(count);
    }

    /**
     * `cleanup_old_backups`: of the `.sqlite` files in `backupDir`, the `maxBackups` most
     * recently modified (`newest`) are kept and removing the others is attempted; every
     * other entry is left alone.
     */
    method CleanupOldBackups(backupDir: string, maxBackups: nat, locked: set<string>, ioError: string)
      returns (r: Result<Unit, string>, ghost newest: seq<string>)
      modifies this
      ensures backupDir !in old(tree) || old(tree)[backupDir].File? <==> r.Err?
      ensures r.Err? ==> r.error == BackupDirPrefix + ioError && tree == old(tree)
      ensures r.Ok? ==> var all := Backups(old(tree), backupDir);
                && |newest| == (if |all| <= maxBackups then |all| else maxBackups)
                && Distinct(newest) && (forall p :: p in newest ==> p in all)
                && (forall p, q :: p in newest && q in all && q !in newest ==>
                      old(tree)[q].modified <= old(tree)[p].modified)
                && (forall p :: p in old(tree) ==>
                      (p in tree <==> !(p in all && p !in newest && p !in locked && !readOnly)))
      ensures forall p :: p in tree ==> p in old(tree) && tree[p] == old(tree)[p]
    {
      if backupDir !in tree || tree[backupDir].File? {
        return Err(BackupDirPrefix + ioError), [];
      }
      var all := Backups(tree, backupDir);
      var mtime := map p | p in all :: tree[p].modified;
      var listing := Listing(all);
      var sorted := SortNewest(listing, mtime);
      SameMembers(listing, sorted);
      var k := if |sorted| <= maxBackups then |sorted| else maxBackups;
      newest := sorted[..k];
      KeepNewest(all, sorted, k, maxBackups, mtime, tree);
      RemoveAll(sorted[k..], locked);
      r := Ok(Unit);
    }

    /** Attempts to remove each of `paths`; removing a locked file, or any on a read-only disk, fails. */
    method RemoveAll(paths: seq<string>, locked: set<string>)
      modifies this
      ensures forall p :: p in old(tree) ==> (p in tree <==> !(p in paths && p !in locked && !readOnly))
      ensures forall p :: p in tree ==> p in old(tree) && tree[p] == old(tree)[p]
    {
      var i := 0;
      while i < |paths|
        invariant i <= |paths|
        invariant forall p :: p in old(tree) ==> (p in tree <==> !(p in paths[..i] && p !in locked && !readOnly))
        invariant forall p :: p in tree ==> p in old(tree) && tree[p] == old(tree)[p]
      {
        var p := paths[i];
        if !readOnly && p !in locked {
          tree := tree - {p};
        }
        assert paths[..i + 1] == paths[..i] + [p];
        i := i + 1;
      }
      assert paths[..i] == paths;
    }
  }

  /** The members of a finite set, each once, in an arbitrary order (a directory listing). */
  method Listing(s: set<string>) returns (l: seq<string>)
    ensures Distinct(l) && |l| == |s|
    ensures forall p :: p in l <==> p in s
  {
    l := [];
    var pending := s;
    while pending != {}
      invariant pending <= s
      invariant forall p :: p in l <==> p in s && p !in pending
      invariant Distinct(l)
      invariant |l| + |pending| == |s|
      decreases |pending|
    {
      var p :| p in pending;
      assert forall i :: 0 <= i < |l| ==> l[i] != p;
      l := l + [p];
      pending := pending - {p};
    }
  }

  /** A reordering has the same members and the same length. */
  lemma SameMembers(a: seq<string>, b: seq<string>)
    requires multiset(a) == multiset(b)
    ensures forall p :: p in a <==> p in b
    ensures |a| == |b|
  {
    forall p
      ensures p in a <==> p in b
    {
      assert p in a <==> p in multiset(a);
      assert p in b <==> p in multiset(b);
    }
    assert |multiset(a)| == |multiset(b)|;
  }

  /**
   * The first `k` entries of the sorted listing are the `k` most recently modified backups,
   * and the entries after them are exactly the other backups.
   */
  lemma KeepNewest(all: set<string>, sorted: seq<string>, k: nat, maxBackups: nat, mtime: map<string, int>, t: Tree)
    requires forall p :: p in sorted <==> p in all
    requires |sorted| == |all| && Distinct(sorted) && NewestOrder(sorted, mtime)
    requires k == if |sorted| <= maxBackups then |sorted| else maxBackups
    requires forall q :: q in all ==> q in t && t[q].File? && Modified(mtime, q) == t[q].modified
    ensures |sorted[..k]| == (if |all| <= maxBackups then |all| else maxBackups)
    ensures Distinct(sorted[..k]) && forall p :: p in sorted[..k] ==> p in all
    ensures forall p, q :: p in sorted[..k] && q in all && q !in sorted[..k] ==> t[q].modified <= t[p].modified
    ensures forall p :: p in sorted[k..] <==> p in all && p !in sorted[..k]
  {
    SplitMembership(sorted, k);
    NewestFirstBound(sorted, k, mtime);
    InPrefix(sorted, k);
  }

  lemma SplitMembership(s: seq<string>, k: nat)
    requires k <= |s| && Distinct(s)
    ensures forall p :: p in s[k..] <==> p in s && p !in s[..k]
  {
    forall p | p in s[k..]
      ensures p !in s[..k]
    {
      var j :| k <= j < |s| && s[j] == p;
      forall i | 0 <= i < k
        ensures s[..k][i] != p
      {
        assert s[..k][i] == s[i];
      }
    }
    forall p | p in s && p !in s[..k]
      ensures p in s[k..]
    {
      var j :| 0 <= j < |s| && s[j] == p;
      InPrefix(s, k);
      assert j >= k;
      assert s[k..][j - k] == p;
    }
  }

  lemma InPrefix(s: seq<string>, k: nat)
    requires k <= |s|
    ensures forall t :: 0 <= t < k ==> s[t] in s[..k]
  {
    forall t | 0 <= t < k
      ensures s[t] in s[..k]
    {
      assert s[..k][t] == s[t];
    }
  }

  lemma NewestFirstBound(s: seq<string>, k: nat, mtime: map<string, int>)
    requires k <= |s| && NewestOrder(s, mtime)
    ensures forall p, q :: p in s[..k] && q in s && q !in s[..k] ==> Modified(mtime, q) <= Modified(mtime, p)
  {
    InPrefix(s, k);
    forall p, q | p in s[..k] && q in s && q !in s[..k]
      ensures Modified(mtime, q) <= Modified(mtime, p)
    {
      var i :| 0 <= i < k && s[..k][i] == p;
      var j :| 0 <= j < |s| && s[j] == q;
      assert j >= k;
      assert s[i] == p;
    }
  }

  // ---------------------------------------------------------------------------------
  // One-field settings commands

  /**
   * Saving the loaded settings with one field changed stores the validated row with that
   * change, exactly when the name is not one that only the second validation replaces.
   */
  lemma ImageUpdateStored(before: UserSettings, data: Bytes, now: string)
    ensures SavedRow(before, ValidateUserSettings(before).(imageBlob := Some(data)), now)
              == ValidateUserSettings(before).(imageBlob := Some(data), updatedAt := now)
            <==> !BlankOnlyAfterCut(before.name)
  {
    var v := ValidateUserSettings(before);
    ValidateIdempotent(before);
    assert ValidateUserSettings(v.(imageBlob := Some(data))) == ValidateUserSettings(v).(imageBlob := Some(data));
  }

  lemma SavePathUpdateStored(before: UserSettings, newPath: string, now: string)
    ensures SavedRow(before, ValidateUserSettings(before).(savePath := newPath), now)
              == ValidateUserSettings(before).(savePath := newPath, updatedAt := now)
            <==> !BlankOnlyAfterCut(before.name)
  {
    var v := ValidateUserSettings(before);
    ValidateIdempotent(before);
    assert ValidateUserSettings(v.(savePath := newPath)) == ValidateUserSettings(v).(savePath := newPath);
  }

  /**
   * `save_user_image`: loads the settings, replaces the image and saves them. The row is
   * what `SavedRow` makes of the validated settings with the new image; it is those
   * settings with the image and the new timestamp unless the stored name is blank only
   * after the cut, when saving validates the name a second time.
   */
  method SaveUserImage(db: SettingsDb, imageData: Bytes, now: string)
    modifies db
    ensures db.row.Some? && db.row.value.imageBlob == Some(imageData)
    ensures var before := if old(db.row).Some? then old(db.row).value else Default(now);
            db.row == Some(SavedRow(before, ValidateUserSettings(before).(imageBlob := Some(imageData)), now))
    ensures var before := if old(db.row).Some? then old(db.row).value else Default(now);
            !BlankOnlyAfterCut(before.name) ==>
              db.row.value == ValidateUserSettings(before).(imageBlob := Some(imageData), updatedAt := now)
  {
    ghost var before := if db.row.Some? then db.row.value else Default(now);
    var s := db.GetUserSettings(now);
    s := s.(imageBlob := Some(imageData));
    db.SaveUserSettings(s, now);
    ImageUpdateStored(before, imageData, now);
  }

  /**
   * `update_save_path`: loads the settings, replaces the save path and saves them, with the
   * row given by `SavedRow` as for `SaveUserImage`.
   */
  method UpdateSavePath(db: SettingsDb, newPath: string, now: string)
    modifies db
    ensures db.row.Some? && db.row.value.savePath == newPath
    ensures var before := if old(db.row).Some? then old(db.row).value else Default(now);
            db.row == Some(SavedRow(before, ValidateUserSettings(before).(savePath := newPath), now))
    ensures var before := if old(db.row).Some? then old(db.row).value else Default(now);
            !BlankOnlyAfterCut(before.name) ==>
              db.row.value == ValidateUserSettings(before).(savePath := newPath, updatedAt := now)
  {
    ghost var before := if db.row.Some? then db.row.value else Default(now);
    var s := db.GetUserSettings(now);
    s := s.(savePath := newPath);
    db.SaveUserSettings(s, now);
    SavePathUpdateStored(before, newPath, now);
  }
}
