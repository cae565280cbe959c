/**
 * The pure helpers of the document store: the MIME allow-list and its extensions,
 * the sanitizing of the original file name, and the relative storage path of a stored file.
 */
module DocumentStorage {
  import opened JsText

  /** `ALLOWED_MIME`. */
  const AllowedMime: set<string> := {"application/pdf", "image/png", "image/jpeg"}

  predicate IsAllowedMime(mime: string) {
    mime in AllowedMime
  }

  /** `mimeToExt`: the extension a stored file gets from its MIME type, empty when the type is not known. */
  function MimeToExt(mime: string): (ext: string)
    ensures ext != "" <==> IsAllowedMime(mime)
    ensures ext in {"", ".pdf", ".png", ".jpg"}
    ensures ext != "" ==> |ext| == 4 && ext[0] == '.'
  {
    if mime == "application/pdf" then ".pdf"
    else if mime == "image/png" then ".png"
    else if mime == "image/jpeg" then ".jpg"
    else ""
  }

  /** Every allowed type has its own extension. */
  lemma MimeToExtInjective(m1: string, m2: string)
    requires IsAllowedMime(m1) && IsAllowedMime(m2) && MimeToExt(m1) == MimeToExt(m2)
    ensures m1 == m2
  {
  }

  // ---------------------------------------------------------------- original name

  const MaxOriginalNameLength: nat := 255

  predicate IsControlBreak(c: char) {
    c == '\r' || c == '\n' || c == '\t'
  }

  predicate IsPathSeparator(c: char) {
    c == '\\' || c == '/'
  }

  /** `.replace(/[\r\n\t]/g, ' ')`. */
  function ReplaceControlBreaks(s: string): string {
    if s == [] then [] else [if IsControlBreak(s[0]) then ' ' else s[0]] + ReplaceControlBreaks(s[1..])
  }

  /** `.replace(/[\\/]/g, '_')`. */
  function ReplaceSeparators(s: string): string {
    if s == [] then [] else [if IsPathSeparator(s[0]) then '_' else s[0]] + ReplaceSeparators(s[1..])
  }

  /** `normalizeOriginalName`: both replacements, then `.slice(0, 255)`. */
  function NormalizeOriginalName(name: string): string {
    var r := ReplaceSeparators(ReplaceControlBreaks(name));
    if |r| <= MaxOriginalNameLength then r else r[..MaxOriginalNameLength]
  }

  /** What a single character of the original name becomes in the stored name. */
  function SanitizedChar(c: char): char {
    if IsControlBreak(c) then ' ' else if IsPathSeparator(c) then '_' else c
  }

  lemma {:induction false} ReplaceControlBreaksAt(s: string)
    ensures |ReplaceControlBreaks(s)| == |s|
    ensures forall i :: 0 <= i < |s| ==> ReplaceControlBreaks(s)[i] == (if IsControlBreak(s[i]) then ' ' else s[i])
  {
    if s != [] {
      ReplaceControlBreaksAt(s[1..]);
    }
  }

  lemma {:induction false} ReplaceSeparatorsAt(s: string)
    ensures |ReplaceSeparators(s)| == |s|
    ensures forall i :: 0 <= i < |s| ==> ReplaceSeparators(s)[i] == (if IsPathSeparator(s[i]) then '_' else s[i])
  {
    if s != [] {
      ReplaceSeparatorsAt(s[1..]);
    }
  }

  /**
   * The stored original name is the original name cut to 255 characters, with CR, LF and TAB
   * turned into spaces and both slashes into underscores; every other character stays in place.
   */
  lemma NormalizeOriginalNameSpec(name: string)
    ensures |NormalizeOriginalName(name)| == if |name| <= MaxOriginalNameLength then |name| else MaxOriginalNameLength
    ensures forall i :: 0 <= i < |NormalizeOriginalName(name)| ==> NormalizeOriginalName(name)[i] == SanitizedChar(name[i])
  {
    ReplaceControlBreaksAt(name);
    ReplaceSeparatorsAt(ReplaceControlBreaks(name));
  }

  /** So the stored original name carries no line break, tab or path separator. */
  lemma NormalizeOriginalNameClean(name: string)
    ensures forall i :: 0 <= i < |NormalizeOriginalName(name)| ==>
      var c := NormalizeOriginalName(name)[i]; !IsControlBreak(c) && !IsPathSeparator(c)
  {
    NormalizeOriginalNameSpec(name);
  }

  /** A name that is already clean and short enough is stored as it is. */
  lemma NormalizeOriginalNameKeepsClean(name: string)
    requires |name| <= MaxOriginalNameLength
    requires forall i :: 0 <= i < |name| ==> !IsControlBreak(name[i]) && !IsPathSeparator(name[i])
    ensures NormalizeOriginalName(name) == name
  {
    NormalizeOriginalNameSpec(name);
  }

  // ---------------------------------------------------------------- storage path

  predicate IsLowerHex(c: char) {
    '0' <= c <= '9' || 'a' <= c <= 'f'
  }

  /** The text of `crypto.randomUUID()`: 36 characters, hexadecimal digits with dashes at 8, 13, 18 and 23. */
  predicate IsUuid(token: string) {
    && |token| == 36
    && forall i :: 0 <= i < 36 ==>
         if i == 8 || i == 13 || i == 18 || i == 23 then token[i] == '-' else IsLowerHex(token[i])
  }

  /** `${uuid}${ext}`. */
  function StoredName(token: string, mime: string): string {
    token + MimeToExt(mime)
  }

  /** The company's directory, relative to the storage root: `empresas/<idEmpresa>/documentos/`. */
  function CompanyDocumentsDir(idEmpresa: int): string {
    "empresas/" + IntToDecimal(idEmpresa) + "/documentos/"
  }

  /** `posix.join('empresas', String(idEmpresa), 'documentos', storedName)` for a name without dot segments. */
  function StoragePath(idEmpresa: int, storedName: string): string {
    CompanyDocumentsDir(idEmpresa) + storedName
  }

  /** Texts of the form `d + "/" + r` with no slash in `d` split uniquely at their first slash. */
  lemma SplitAtFirstSlash(d1: string, r1: string, d2: string, r2: string)
    requires d1 + "/" + r1 == d2 + "/" + r2
    requires forall i :: 0 <= i < |d1| ==> d1[i] != '/'
    requires forall i :: 0 <= i < |d2| ==> d2[i] != '/'
    ensures d1 == d2 && r1 == r2
  {
    var x := d1 + "/" + r1;
    assert x[|d1|] == '/';
    assert x == d2 + "/" + r2;
    assert x[|d2|] == '/';
    assert forall i :: 0 <= i < |d1| ==> x[i] == d1[i];
    assert forall i :: 0 <= i < |d2| ==> x[i] == d2[i];
    assert |d1| == |d2|;
    assert d1 == x[..|d1|] == d2;
    assert r1 == x[|d1| + 1..] == r2;
  }

  /** The path of a stored file names its company and its stored name uniquely. */
  lemma StoragePathInjective(c1: int, n1: string, c2: int, n2: string)
    requires StoragePath(c1, n1) == StoragePath(c2, n2)
    ensures c1 == c2 && n1 == n2
  {
    var d1, d2 := IntToDecimal(c1), IntToDecimal(c2);
    var x1 := StoragePathTail(c1, n1);
    var x2 := StoragePathTail(c2, n2);
    assert x1 == ("empresas/" + x1)[9..] == ("empresas/" + x2)[9..] == x2;
    SplitAtFirstSlash(d1, "documentos/" + n1, d2, "documentos/" + n2);
    IntToDecimalInjective(c1, c2);
    assert n1 == ("documentos/" + n1)[11..] == n2;
  }

  /** What follows `empresas/` in a storage path. */
  lemma StoragePathTail(c: int, n: string) returns (x: string)
    ensures x == IntToDecimal(c) + "/" + ("documentos/" + n)
    ensures StoragePath(c, n) == "empresas/" + x
  {
    x := IntToDecimal(c) + "/" + ("documentos/" + n);
    assert "/documentos/" == "/" + "documentos/";
  }

  /**
   * For a UUID token and an allowed type the stored name is a single file name with no
   * separator that does not start with a dot, so the path (the company's directory followed
   * by that name) never climbs out of the company's directory.
   */
  lemma StoragePathScoped(token: string, mime: string)
    requires IsUuid(token) && IsAllowedMime(mime)
    ensures var name := StoredName(token, mime);
      && |name| == 40 && name[0] != '.'
      && forall i :: 0 <= i < |name| ==> name[i] != '/' && name[i] != '\\'
  {
    var name := StoredName(token, mime);
    forall i | 0 <= i < |name| ensures name[i] != '/' && name[i] != '\\' {
      if i < 36 { assert name[i] == token[i]; }
    }
    assert name[0] == token[0];
  }
}
