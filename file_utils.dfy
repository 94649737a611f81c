/** Image file helpers (utils/fileUtils.ts): whether an upload is a HEIC or
    HEIF image, the name a converted image gets, and the base64 payload of
    a data URL. The conversion itself and the file reading are browser
    work and are parameters here. */
module FileUtils {
  import opened Seqs
  import opened Types

  const JpegType: string := "image/jpeg"

  // ---------------------------------------------------------------------
  // Detection.

  function LowerChar(c: char): char {
    if 'A' <= c <= 'Z' then (c as int + 32) as char else c
  }

  /** `s.toLowerCase()`, for the Latin letters. */
  function ToLower(s: string): (r: string)
    ensures |r| == |s|
    ensures forall i :: 0 <= i < |s| ==> r[i] == LowerChar(s[i])
  {
    seq(|s|, i requires 0 <= i < |s| => LowerChar(s[i]))
  }

  predicate EndsWith(s: string, suffix: string) {
    |suffix| <= |s| && s[|s| - |suffix|..] == suffix
  }

  /** The test `getDisplayUrl` and `fileToBase64` both make. */
  predicate IsHeic(f: File) {
    var lower := ToLower(f.name);
    f.mimeType == "image/heic" || f.mimeType == "image/heif"
    || EndsWith(lower, ".heic") || EndsWith(lower, ".heif")
  }

  /** Two names that differ only in letter case are detected alike. */
  lemma HeicIgnoresCase(f: File, g: File)
    requires f.mimeType == g.mimeType && ToLower(f.name) == ToLower(g.name)
    ensures IsHeic(f) <==> IsHeic(g)
  {
  }

  /** The name test, spelled out: the last five characters, lowered, are
      `.heic` or `.heif`, whatever the type says. */
  lemma {:induction false} HeicByName(f: File)
    requires |f.name| >= 5
    requires f.name[|f.name| - 5] == '.'
    requires LowerChar(f.name[|f.name| - 4]) == 'h' && LowerChar(f.name[|f.name| - 3]) == 'e'
    requires LowerChar(f.name[|f.name| - 2]) == 'i'
    requires LowerChar(f.name[|f.name| - 1]) == 'c' || LowerChar(f.name[|f.name| - 1]) == 'f'
    ensures IsHeic(f)
  {
    var lower := ToLower(f.name);
    var n := |lower|;
    var tail := lower[n - 5..];
    assert tail == [lower[n - 5], lower[n - 4], lower[n - 3], lower[n - 2], lower[n - 1]];
    if LowerChar(f.name[n - 1]) == 'c' {
      assert tail == ".heic";
    } else {
      assert tail == ".heif";
    }
  }

  lemma UpperCaseHeicExample()
    ensures IsHeic(File("PHOTO.HEIC", "application/octet-stream"))
  {
    HeicByName(File("PHOTO.HEIC", "application/octet-stream"));
  }

  /** A file with another type and another ending is not HEIC. */
  lemma JpegIsNotHeic()
    ensures !IsHeic(File("photo.jpg", JpegType))
  {
    var lower := ToLower("photo.jpg");
    assert lower[|lower| - 1] == 'g';
  }

  // ---------------------------------------------------------------------
  // Renaming: `name.replace(/\.[^/.]+$/, "") + ".jpeg"`.

  predicate NotSeparator(c: char) {
    c != '.' && c != '/'
  }

  /** The regular expression matches at `p`: a dot, then one or more
      characters that are neither `.` nor `/`, up to the end. */
  predicate ExtensionAt(name: string, p: nat) {
    p + 1 < |name| && name[p] == '.' && forall i :: p < i < |name| ==> NotSeparator(name[i])
  }

  /** The number of characters after the last `.` or `/`. */
  function TrailingPlain(s: string): (n: nat)
    ensures n <= |s|
    ensures forall i :: |s| - n <= i < |s| ==> NotSeparator(s[i])
    ensures n < |s| ==> !NotSeparator(s[|s| - n - 1])
  {
    if s == [] || !NotSeparator(Last(s)) then 0
    else TrailingPlain(DropLast(s)) + 1
  }

  /** Where the extension the expression removes begins, if there is one. */
  function ExtensionStart(name: string): Option<nat> {
    var n := TrailingPlain(name);
    if 0 < n < |name| && name[|name| - n - 1] == '.' then Some(|name| - n - 1) else None
  }

  /** `ExtensionStart` finds exactly the match of the expression, which is
      therefore unique. */
  lemma ExtensionStartIsMatch(name: string, p: nat)
    ensures ExtensionStart(name) == Some(p) <==> ExtensionAt(name, p)
  {
    var n := TrailingPlain(name);
    if ExtensionAt(name, p) {
      assert !NotSeparator(name[p]);
      assert forall i :: p < i < |name| ==> NotSeparator(name[i]);
    }
  }

  function StripExtension(name: string): (base: string)
    ensures |base| <= |name|
  {
    match ExtensionStart(name)
    case Some(p) => name[..p]
    case None => name
  }

  /** The name of the converted JPEG. */
  function ConvertedName(name: string): (converted: string)
    ensures EndsWith(converted, ".jpeg")
    ensures |converted| <= |name| + 5
  {
    StripExtension(name) + ".jpeg"
  }

  /** The last extension is replaced by `.jpeg`. */
  lemma ReplacesExtension(base: string, ext: string)
    requires |ext| > 0 && forall i :: 0 <= i < |ext| ==> NotSeparator(ext[i])
    ensures ConvertedName(base + "." + ext) == base + ".jpeg"
  {
    var name := base + "." + ext;
    assert forall i :: |base| < i < |name| ==> name[i] == ext[i - |base| - 1];
    ExtensionStartIsMatch(name, |base|);
    assert name[..|base|] == base;
  }

  /** Without a match, `.jpeg` is appended to the whole name. */
  lemma AppendsWithoutExtension(name: string)
    requires forall p :: !ExtensionAt(name, p)
    ensures ConvertedName(name) == name + ".jpeg"
  {
    if ExtensionStart(name).Some? {
      ExtensionStartIsMatch(name, ExtensionStart(name).value);
    }
  }

  /** Only the last extension goes: `a.b.heic` becomes `a.b.jpeg`. */
  lemma DottedNameExample()
    ensures ConvertedName("a.b.heic") == "a.b.jpeg"
  {
    DottedNameParts();
    ReplacesExtension("a.b", "heic");
  }

  lemma DottedNameParts()
    ensures "a.b" + "." + "heic" == "a.b.heic"
    ensures "a.b" + ".jpeg" == "a.b.jpeg"
  {
  }

  /** A name without a dot keeps all of itself. */
  lemma {:induction false} NoDotExample(name: string)
    requires '.' !in name
    ensures ConvertedName(name) == name + ".jpeg"
  {
    forall p: nat ensures !ExtensionAt(name, p) {
      if p < |name| {
        assert name[p] in name;
      }
    }
    AppendsWithoutExtension(name);
  }

  // ---------------------------------------------------------------------
  // The file that is read: `fileToBase64`.

  /** The file `convertHeicToJpg` resolves with: the new name, JPEG type. */
  function Converted(f: File): (g: File)
    ensures g.mimeType == JpegType
  {
    File(ConvertedName(f.name), JpegType)
  }

  /** `result.split(',')[1]`: the text between the first comma and the next
      one, or the end; `None` (`undefined`) when there is no comma. */
  function DataUrlPayload(url: string): (payload: Option<string>)
    ensures payload.Some? <==> ',' in url
    ensures payload.Some? ==> ',' !in payload.value
  {
    if ',' !in url then None
    else
      var rest := url[FirstIndex(url, ',') + 1..];
      Some(if ',' in rest then rest[..FirstIndex(rest, ',')] else rest)
  }

  /** The payload of a data URL is what follows its header. */
  lemma PayloadOfDataUrl(header: string, payload: string)
    requires ',' !in header && ',' !in payload
    ensures DataUrlPayload(header + "," + payload) == Some(payload)
  {
    FirstComma(header, payload);
  }

  /** `split(',')[1]` stops at the next comma: whatever follows it is dropped. */
  lemma PayloadStopsAtComma(header: string, payload: string, more: string)
    requires ',' !in header && ',' !in payload
    ensures DataUrlPayload(header + "," + payload + "," + more) == Some(payload)
  {
    assert header + "," + payload + "," + more == header + "," + (payload + "," + more);
    FirstComma(header, payload + "," + more);
    FirstComma(payload, more);
    assert (payload + "," + more)[..|payload|] == payload;
  }

  /** The first comma of `header,tail` is the one after the header. */
  lemma FirstComma(header: string, tail: string)
    requires ',' !in header
    ensures ',' in header + "," + tail
    ensures FirstIndex(header + "," + tail, ',') == |header|
    ensures (header + "," + tail)[|header| + 1..] == tail
  {
    var url := header + "," + tail;
    assert url[|header|] == ',';
    assert forall j :: 0 <= j < |header| ==> url[j] == header[j];
  }

  /** `fileToBase64`: converts a HEIC image first, then reads the file as a
      data URL (`readAsDataURL`, given as `readDataUrl`) and answers its type
      and payload. */
  method FileToBase64(file: File, readDataUrl: File -> string) returns (mimeType: string, data: Option<string>)
    ensures mimeType == if IsHeic(file) then JpegType else file.mimeType
    ensures data == DataUrlPayload(readDataUrl(if IsHeic(file) then Converted(file) else file))
  {
    var processedFile := file;
    if IsHeic(file) {
      processedFile := Converted(file);
    }
    var result := readDataUrl(processedFile);
    mimeType := processedFile.mimeType;
    data := DataUrlPayload(result);
  }
}
