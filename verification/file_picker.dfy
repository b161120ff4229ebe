/**
 * The file filter of the upload picker (`uploader/useFilePicker.ts`): a file
 * is taken when its MIME type is a font type or its name ends with a font
 * extension, and the selection callback fires only for a non-empty batch.
 * Opening the browser's file dialog is not modelled.
 */
module FilePicker {
  import opened Wrappers
  import opened JsString
  import opened BrowserFile
  import FontStore

  const AllowedExtensions: seq<string> := [".woff2", ".woff", ".ttf", ".otf"]

  const AllowedMimeTypes: set<string> := {
    "font/woff2", "font/woff", "font/ttf", "font/otf",
    "application/font-woff2", "application/font-woff",
    "application/x-font-ttf", "application/x-font-otf"
  }

  /** `extensions.some((ext) => name.endsWith(ext))`, scanning left to right. */
  function SomeSuffix(name: string, extensions: seq<string>): bool
  {
    extensions != [] && (EndsWith(name, extensions[0]) || SomeSuffix(name, extensions[1..]))
  }

  lemma {:induction false} SomeSuffixMeaning(name: string, extensions: seq<string>)
    ensures SomeSuffix(name, extensions) <==> exists k :: 0 <= k < |extensions| && EndsWith(name, extensions[k])
    decreases |extensions|
  {
    if extensions != [] {
      SomeSuffixMeaning(name, extensions[1..]);
      if SomeSuffix(name, extensions[1..]) {
        var k :| 0 <= k < |extensions[1..]| && EndsWith(name, extensions[1..][k]);
        assert extensions[k + 1] == extensions[1..][k];
      }
      if exists k :: 0 <= k < |extensions| && EndsWith(name, extensions[k]) {
        var k :| 0 <= k < |extensions| && EndsWith(name, extensions[k]);
        if k > 0 {
          assert extensions[1..][k - 1] == extensions[k];
        }
      }
    }
  }

  /** `isFontFile`: the MIME type is checked first, then the lower-cased name. */
  function IsFontFile(file: File): bool
  {
    file.mimeType in AllowedMimeTypes || SomeSuffix(ToLower(file.name), AllowedExtensions)
  }

  /**
   * A file is taken exactly when its MIME type is a font type, whatever its
   * name, or when its lower-cased name ends with one of the four extensions.
   */
  lemma IsFontFileMeaning(file: File)
    ensures file.mimeType in AllowedMimeTypes ==> IsFontFile(file)
    ensures file.mimeType !in AllowedMimeTypes ==>
      (IsFontFile(file) <==> exists k :: 0 <= k < |AllowedExtensions| && EndsWith(ToLower(file.name), AllowedExtensions[k]))
  {
    SomeSuffixMeaning(ToLower(file.name), AllowedExtensions);
  }

  /** The name test ignores case: "FONT.TTF" passes like "font.ttf". */
  lemma UpperCaseNameAccepted(size: nat)
    ensures IsFontFile(File("FONT.TTF", "", size))
  {
    assert ToLower("FONT.TTF") == "font.ttf";
    assert EndsWith("font.ttf", AllowedExtensions[2]);
    SomeSuffixMeaning("font.ttf", AllowedExtensions);
  }

  /** The files of `files` that are font files, in their order. */
  function FontFilesOf(files: seq<File>): (r: seq<File>)
    ensures |r| <= |files|
  {
    if files == [] then []
    else (if IsFontFile(files[0]) then [files[0]] else []) + FontFilesOf(files[1..])
  }

  /** `filterFontFiles`: no list at all gives no files. */
  function FilterFontFiles(fileList: Option<seq<File>>): seq<File>
  {
    match fileList
    case None => []
    case Some(files) => FontFilesOf(files)
  }

  /** Exactly the font files are kept. */
  lemma {:induction false} FontFilesOfContents(files: seq<File>)
    ensures forall f :: f in FontFilesOf(files) <==> f in files && IsFontFile(f)
    decreases |files|
  {
    if files != [] {
      FontFilesOfContents(files[1..]);
      assert forall f :: f in files <==> f == files[0] || f in files[1..];
    }
  }

  /** Filtering a concatenation filters each part: the kept files keep their relative order. */
  lemma {:induction false} FontFilesOfAppend(a: seq<File>, b: seq<File>)
    ensures FontFilesOf(a + b) == FontFilesOf(a) + FontFilesOf(b)
    decreases |a|
  {
    if a == [] {
      assert a + b == b;
    } else {
      var ab := a + b;
      assert ab[0] == a[0] && ab[1..] == a[1..] + b;
      FontFilesOfAppend(a[1..], b);
      var head := if IsFontFile(a[0]) then [a[0]] else [];
      assert FontFilesOf(ab) == head + FontFilesOf(a[1..] + b);
      assert FontFilesOf(a) == head + FontFilesOf(a[1..]);
    }
  }

  /** A list of font files only is kept whole. */
  lemma {:induction false} FontFilesOfFonts(files: seq<File>)
    requires forall i :: 0 <= i < |files| ==> IsFontFile(files[i])
    ensures FontFilesOf(files) == files
    decreases |files|
  {
    if files != [] {
      FontFilesOfFonts(files[1..]);
    }
  }

  /** `filterFontFiles(null)` is empty, and filtering an already filtered list changes nothing. */
  lemma FilterFontFilesIdempotent(fileList: Option<seq<File>>)
    ensures FilterFontFiles(None) == []
    ensures var once := FilterFontFiles(fileList); FilterFontFiles(Some(once)) == once
  {
    var once := FilterFontFiles(fileList);
    if fileList.Some? {
      FontFilesOfContents(fileList.value);
    }
    assert forall i :: 0 <= i < |once| ==> once[i] in once;
    FontFilesOfFonts(once);
  }

  /**
   * `handleFileList`: the batch handed to `onFilesSelected`, or `None` when
   * the callback is not called.
   */
  function HandleFileList(fileList: Option<seq<File>>): (selected: Option<seq<File>>)
  {
    var fontFiles := FilterFontFiles(fileList);
    if |fontFiles| > 0 then Some(fontFiles) else None
  }

  /**
   * The callback fires exactly when some file of the list is a font file,
   * and it receives font files of the list only, all of them.
   */
  lemma HandleFileListSelects(fileList: Option<seq<File>>)
    ensures var selected := HandleFileList(fileList);
      (selected.Some? <==> fileList.Some? && exists f :: f in fileList.value && IsFontFile(f)) &&
      (selected.Some? ==> forall f :: f in selected.value <==> f in fileList.value && IsFontFile(f))
  {
    if fileList.Some? {
      FontFilesOfContents(fileList.value);
      var r := FontFilesOf(fileList.value);
      if r != [] {
        assert r[0] in r;
      }
    }
  }

  /** The picker's MIME types are exactly the ones the store maps to a format. */
  lemma AllowedMimeTypesHaveFormats(mimeType: string)
    ensures mimeType in AllowedMimeTypes <==> FontStore.MimeToExt(mimeType).Some?
  {
  }

  /** The picker's extensions are the ones the store strips and reads the format from. */
  lemma AllowedExtensionsAreStoreExtensions()
    ensures AllowedExtensions == FontStore.FontExtensions
  {
  }

  /** Every file the picker takes gets one of the four formats in the store, never "". */
  lemma AcceptedFilesHaveFormat(file: File)
    requires IsFontFile(file)
    ensures FontStore.ExtensionOf(file.name, file.mimeType) != ""
  {
    var lower := ToLower(file.name);
    SomeSuffixMeaning(lower, AllowedExtensions);
    if k :| 0 <= k < |AllowedExtensions| && EndsWith(lower, AllowedExtensions[k]) {
      FontStore.ExtensionFromNameWins(file.name, file.mimeType, k);
    } else {
      AllowedMimeTypesHaveFormats(file.mimeType);
      FontStore.ExtensionFromMimeType(file.name, file.mimeType);
      FontStore.MimeFormatsAreKnown(file.mimeType);
    }
  }
}
