/** The attachment upload route (server/src/routes/upload.ts): multer's file filter and size limit,
    the stored file name, and the JSON the route answers. The filter is an unanchored regular
    expression made of alternatives, so "matches" means "contains one of the alternatives". */
module Upload {
  import opened Wrappers
  import opened Text
  import opened Paths
  import opened Http
  import opened Dispatch

  /** The alternatives of `/pdf|jpg|jpeg|png|doc|docx|xls|xlsx/`. */
  const Tokens: seq<string> := ["pdf", "jpg", "jpeg", "png", "doc", "docx", "xls", "xlsx"]

  /** The alternatives the MIME-type test needs so that every type in the extension table passes:
      the registered types of .doc and .xls contain none of `Tokens`. */
  const MimeTokens: seq<string> := Tokens + ["msword", "ms-excel"]

  const MaxUploadBytes: nat := 10 * 1024 * 1024
  const UploadsPrefix: string := "/uploads/"

  /** `new RegExp(tokens.join('|')).test(s)`. */
  predicate AnyIn(s: string, tokens: seq<string>) {
    exists t :: t in tokens && Contains(s, t)
  }

  /** The filter as written: the lower-cased extension and the MIME type as sent must both match
      the same expression. */
  predicate AcceptsAsWritten(ext: string, mime: string) {
    AnyIn(ext, Tokens) && AnyIn(mime, Tokens)
  }

  /** The filter with the MIME test widened to the .doc and .xls types. */
  predicate Accepts(ext: string, mime: string) {
    AnyIn(ext, Tokens) && AnyIn(mime, MimeTokens)
  }

  /** The extension the filter tests: `path.extname(originalname).toLowerCase()`. */
  function FilterExt(originalName: string): (r: string)
    ensures |r| == |Extname(originalName)|
    ensures r == "" || r[0] == '.'
  {
    ToLower(Extname(originalName))
  }

  /** `t` does not occur in `s` when one of its characters does not occur in `s`. */
  lemma NotContainsMissingChar(s: string, t: string, k: nat)
    requires k < |t| && t[k] !in s
    ensures !Contains(s, t)
  {
    ContainsIff(s, t);
    forall i
      ensures !OccursAt(s, t, i)
    {
    }
  }

  /** `t` does not occur in `s` when the first character of `t` occurs in `s` only once, and is not
      followed there by the second character of `t`. */
  lemma NotContainsSingleLead(p: string, c: char, q: string, t: string)
    requires |t| >= 2 && c == t[0] && t[0] !in p && t[0] !in q
    requires q == [] || q[0] != t[1]
    ensures !Contains(p + [c] + q, t)
  {
    var s := p + [c] + q;
    ContainsIff(s, t);
    forall i
      ensures !OccursAt(s, t, i)
    {
    }
  }

  /** No alternative for PDF or an image occurs in either legacy Office type: each lacks one
      of the alternative's characters ('f', 'j' or 'g'). */
  lemma NoImageTokenIn(s: string, t: string)
    requires s == "application/msword" || s == "application/vnd.ms-excel"
    requires t in {"pdf", "jpg", "jpeg", "png"}
    ensures !Contains(s, t)
  {
    if t == "pdf" || t == "png" {
      NotContainsMissingChar(s, t, 2);
    } else {
      NotContainsMissingChar(s, t, 0);
    }
  }

  /** The registered type of .doc matches no alternative. */
  lemma MsWordMatchesNothing()
    ensures !AnyIn("application/msword", Tokens)
  {
    var s := "application/msword";
    assert s == "application/mswor" + ['d'] + "";
    forall t | t in Tokens
      ensures !Contains(s, t)
    {
      if t in {"pdf", "jpg", "jpeg", "png"} {
        NoImageTokenIn(s, t);
      } else if t == "doc" || t == "docx" {
        NotContainsSingleLead("application/mswor", 'd', "", t);
      } else {
        NotContainsMissingChar(s, t, 0);
      }
    }
  }

  /** The registered type of .xls matches no alternative. */
  lemma MsExcelMatchesNothing()
    ensures !AnyIn("application/vnd.ms-excel", Tokens)
  {
    var s := "application/vnd.ms-excel";
    forall t | t in Tokens
      ensures !Contains(s, t)
    {
      if t in {"pdf", "jpg", "jpeg", "png"} {
        NoImageTokenIn(s, t);
      } else {
        NoOfficeTokenInMsExcel(t);
      }
    }
  }

  /** In "application/vnd.ms-excel" the only 'd' is followed by '.', the only 'x' by 'c'. */
  lemma NoOfficeTokenInMsExcel(t: string)
    requires t in {"doc", "docx", "xls", "xlsx"}
    ensures !Contains("application/vnd.ms-excel", t)
  {
    if t == "doc" || t == "docx" {
      assert "application/vnd.ms-excel" == "application/vn" + ['d'] + ".ms-excel";
      NotContainsSingleLead("application/vn", 'd', ".ms-excel", t);
    } else {
      assert "application/vnd.ms-excel" == "application/vnd.ms-e" + ['x'] + "cel";
      NotContainsSingleLead("application/vnd.ms-e", 'x', "cel", t);
    }
  }

  /** `t` occurs in any string that has it between two others. */
  lemma Occurs(a: string, t: string, b: string)
    ensures Contains(a + t + b, t)
  {
    assert (a + t + b)[|a|..|a| + |t|] == t;
    ContainsAt(a + t + b, t, |a|);
  }

  /** As written, the filter turns away a Word document and an Excel sheet sent with their
      registered MIME types, although their extensions match. */
  lemma AsWrittenRejectsDocAndXls()
    ensures AnyIn(".doc", Tokens) && !AcceptsAsWritten(".doc", MimeFor(".doc"))
    ensures AnyIn(".xls", Tokens) && !AcceptsAsWritten(".xls", MimeFor(".xls"))
  {
    assert AnyIn(".doc", Tokens) by {
      DotTokenMatches("doc");
    }
    assert AnyIn(".xls", Tokens) by {
      DotTokenMatches("xls");
    }
    LegacyOfficeTypes();
    MsWordMatchesNothing();
    MsExcelMatchesNothing();
  }

  /** The dispatcher's types for .doc and .xls, read off the if-chain one character at a time. */
  lemma LegacyOfficeTypes()
    ensures MimeFor(".doc") == "application/msword"
    ensures MimeFor(".xls") == "application/vnd.ms-excel"
  {
    var d, x := ".doc", ".xls";
    assert d[1] == 'd' && x[1] == 'x';
    assert ".pdf"[1] == 'p' && ".jpg"[1] == 'j' && ".png"[1] == 'p' && ".doc"[1] == 'd';
    assert |".jpeg"| == 5 && |".docx"| == 5;
  }

  /** An alternative after a '.' matches. */
  lemma DotTokenMatches(e: string)
    requires e in Tokens
    ensures AnyIn("." + e, Tokens)
  {
    assert "." + e == "." + e + "";
    Occurs(".", e, "");
  }

  /** The widened filter accepts the extension `.e` with a MIME type that has one of its
      alternatives at position `i`. */
  lemma AcceptsWhere(e: string, mime: string, token: string, i: nat)
    requires e in Tokens && token in MimeTokens
    requires i + |token| <= |mime| && mime[i..i + |token|] == token
    ensures Accepts("." + e, mime)
  {
    assert "." + e == "." + e + "";
    Occurs(".", e, "");
    ContainsAt(mime, token, i);
  }

  /** The widened filter accepts PDF and the image types. */
  lemma AcceptsPdfAndImages(ext: string)
    requires ext in {".pdf", ".jpg", ".jpeg", ".png"}
    ensures Accepts(ext, MimeFor(ext))
  {
    if ext == ".pdf" {
      var mime := MimeFor(ext);
      assert mime == "application/pdf";
      assert mime[12..15] == "pdf";
      assert ext == "." + "pdf";
      AcceptsWhere("pdf", mime, "pdf", 12);
    } else if ext == ".jpg" {
      var mime := MimeFor(ext);
      assert mime == "image/jpeg";
      assert mime[6..10] == "jpeg";
      assert ext == "." + "jpg";
      AcceptsWhere("jpg", mime, "jpeg", 6);
    } else if ext == ".jpeg" {
      var mime := MimeFor(ext);
      assert mime == "image/jpeg";
      assert mime[6..10] == "jpeg";
      assert ext == "." + "jpeg";
      AcceptsWhere("jpeg", mime, "jpeg", 6);
    } else {
      assert ext == ".png";
      var mime := MimeFor(ext);
      assert mime == "image/png";
      assert mime[6..9] == "png";
      assert ext == "." + "png";
      AcceptsWhere("png", mime, "png", 6);
    }
  }

  /** The widened filter accepts the legacy Office types, which need the widened alternatives. */
  lemma AcceptsLegacyOffice(ext: string)
    requires ext in {".doc", ".xls"}
    ensures Accepts(ext, MimeFor(ext))
  {
    if ext == ".doc" {
      var mime := MimeFor(ext);
      assert mime == "application/msword";
      assert mime[12..18] == "msword";
      assert ext == "." + "doc";
      AcceptsWhere("doc", mime, "msword", 12);
    } else {
      assert ext == ".xls";
      var mime := MimeFor(ext);
      assert mime == "application/vnd.ms-excel";
      assert mime[16..24] == "ms-excel";
      assert ext == "." + "xls";
      AcceptsWhere("xls", mime, "ms-excel", 16);
    }
  }

  /** The widened filter accepts the Office Open XML types: both contain "officedocument". */
  lemma AcceptsOpenXml(ext: string)
    requires ext in {".docx", ".xlsx"}
    ensures Accepts(ext, MimeFor(ext))
  {
    if ext == ".docx" {
      AcceptsWordOpenXml();
    } else {
      AcceptsExcelOpenXml();
    }
  }

  lemma AcceptsWordOpenXml()
    ensures Accepts(".docx", MimeFor(".docx"))
  {
    var mime := "application/vnd.openxmlformats-officedocument.wordprocessingml.document";
    assert ".docx" == "." + "docx";
    AcceptsOpenXmlType("docx", mime);
  }

  lemma AcceptsExcelOpenXml()
    ensures Accepts(".xlsx", MimeFor(".xlsx"))
  {
    var mime := "application/vnd.openxmlformats-officedocument.spreadsheetml.sheet";
    assert ".xlsx" == "." + "xlsx";
    AcceptsOpenXmlType("xlsx", mime);
  }

  /** A type with "doc" at position 37 ("application/vnd.openxmlformats-office" is 37 long). */
  lemma AcceptsOpenXmlType(e: string, mime: string)
    requires e == "docx" || e == "xlsx"
    requires |mime| >= 40 && mime[37] == 'd' && mime[38] == 'o' && mime[39] == 'c'
    ensures Accepts("." + e, mime)
  {
    assert e in Tokens;
    assert mime[37..40] == "doc";
    AcceptsWhere(e, mime, "doc", 37);
  }

  /** The widened filter accepts every extension of the dispatcher's table with its MIME type. */
  lemma AcceptsTable(ext: string)
    requires ext in MimeTable
    ensures Accepts(ext, MimeFor(ext))
  {
    if ext in {".pdf", ".jpg", ".jpeg", ".png"} {
      AcceptsPdfAndImages(ext);
    } else if ext in {".doc", ".xls"} {
      AcceptsLegacyOffice(ext);
    } else {
      AcceptsOpenXml(ext);
    }
  }

  /** Widening only adds: whatever the filter as written accepts, the widened one accepts. */
  lemma AcceptsWidens(ext: string, mime: string)
    requires AcceptsAsWritten(ext, mime)
    ensures Accepts(ext, mime)
  {
    var t :| t in Tokens && Contains(mime, t);
    assert t in MimeTokens;
  }

  /** One part of a multipart upload as multer sees it. */
  datatype IncomingFile = IncomingFile(originalName: string, mimetype: string, size: nat)

  /** The route's answer: where the file is served and what was received. */
  datatype UploadInfo = UploadInfo(url: string, filename: string, size: nat, mimetype: string)

  /** The stored name: the unique suffix (`Date.now() + '-' + random`) and the original extension,
      with its case kept. */
  function StoredName(suffix: string, originalName: string): (r: string)
    ensures StartsWith(r, suffix)
    ensures EndsWith(r, Extname(originalName))
    ensures |r| == |suffix| + |Extname(originalName)|
  {
    var r := suffix + Extname(originalName);
    assert r[..|suffix|] == suffix;
    assert r[|r| - |Extname(originalName)|..] == Extname(originalName);
    r
  }

  /** A name made from a suffix without '/' has no '/', so the file lands in the uploads directory. */
  lemma StoredNameStaysInDirectory(suffix: string, originalName: string)
    requires '/' !in suffix
    ensures '/' !in StoredName(suffix, originalName)
  {
    var x := Extname(originalName);
    if x != "" {
      EndsWithChars(Basename(originalName), x);
    }
    var r := StoredName(suffix, originalName);
    assert r == suffix + x;
    assert forall c :: c in r ==> c in suffix || c in x;
  }

  /** `POST /api/upload/file` with the widened filter. A file the filter refuses, or one over the
      size limit, is an error multer hands to Express (500); a request without a file is 400;
      otherwise the served URL and the original name, size and type. */
  function UploadFile(file: Option<IncomingFile>, suffix: string): (r: Response<UploadInfo>)
    ensures file.None? ==> r == Error(400, "Nenhum arquivo enviado")
    ensures file.Some? ==> (r.Json? <==> Accepts(FilterExt(file.value.originalName), file.value.mimetype)
                                         && file.value.size <= MaxUploadBytes)
    ensures r.Json? ==>
              && r.code == 200
              && r.data.url == UploadsPrefix + StoredName(suffix, file.value.originalName)
              && r.data.filename == file.value.originalName
              && r.data.size == file.value.size && r.data.mimetype == file.value.mimetype
              && r.data.size <= MaxUploadBytes
    ensures file.Some? && !r.Json? ==> r == Raised(500)
  {
    match file
    case None => Error(400, "Nenhum arquivo enviado")
    case Some(f) =>
      if !Accepts(FilterExt(f.originalName), f.mimetype) || f.size > MaxUploadBytes then Raised(500)
      else Json(200, UploadInfo(UploadsPrefix + StoredName(suffix, f.originalName), f.originalName, f.size, f.mimetype))
  }

  /** An uploaded file is served under the uploads path with its original extension, which is what
      the dispatcher later reads to pick the document's MIME type. */
  lemma UploadedUrlKeepsExtension(f: IncomingFile, suffix: string)
    requires '/' !in suffix && '.' !in suffix && suffix != ""
    requires Accepts(FilterExt(f.originalName), f.mimetype) && f.size <= MaxUploadBytes
    ensures var r := UploadFile(Some(f), suffix);
            && StartsWith(r.data.url, UploadsPrefix)
            && Extname(r.data.url) == Extname(f.originalName)
  {
    var x := Extname(f.originalName);
    var url := UploadsPrefix + StoredName(suffix, f.originalName);
    assert url[..|UploadsPrefix|] == UploadsPrefix;
    MatchIsNonEmpty(FilterExt(f.originalName));
    ExtnameOfStoredUrl(suffix, x, f.originalName);
  }

  /** Only a non-empty string matches: every alternative has characters. */
  lemma MatchIsNonEmpty(s: string)
    requires AnyIn(s, Tokens)
    ensures s != ""
  {
    var t :| t in Tokens && Contains(s, t);
    assert t != "";
  }

  /** The extension of `/uploads/<suffix><.ext>` is `.ext`. */
  lemma ExtnameOfStoredUrl(suffix: string, x: string, originalName: string)
    requires '/' !in suffix && '.' !in suffix && suffix != ""
    requires x == Extname(originalName) && x != ""
    ensures Extname(UploadsPrefix + StoredName(suffix, originalName)) == x
  {
    ExtShape(originalName);
    var e := x[1..];
    var name := StoredName(suffix, originalName);
    assert name == suffix + x;
    Regroup(UploadsPrefix, suffix, e);
    ExtnameOfPrefixed(UploadsPrefix, suffix, e);
  }

  /** `dir + (suffix + ("." + e))` regrouped from the left. */
  lemma Regroup(dir: string, suffix: string, e: string)
    ensures dir + (suffix + ("." + e)) == dir + suffix + "." + e
  {
  }

  /** A non-empty extension is '.' followed by characters that are neither '/' nor '.'. */
  lemma ExtShape(p: string)
    requires Extname(p) != ""
    ensures Extname(p) == "." + Extname(p)[1..]
    ensures '/' !in Extname(p)[1..] && '.' !in Extname(p)[1..]
  {
    var x := Extname(p);
    EndsWithChars(Basename(p), x);
    assert x == [x[0]] + x[1..];
    ExtHasOneDot(p);
  }

  /** Every character of a suffix occurs in the whole. */
  lemma EndsWithChars(b: string, x: string)
    requires EndsWith(b, x)
    ensures forall c :: c in x ==> c in b
  {
    forall c | c in x
      ensures c in b
    {
      var i :| 0 <= i < |x| && x[i] == c;
      assert b[|b| - |x| + i] == c;
    }
  }

  /** The extension has exactly one '.', its first character. */
  lemma ExtHasOneDot(p: string)
    requires Extname(p) != ""
    ensures '.' !in Extname(p)[1..]
  {
    var base := Basename(p);
    var k := LastIndexOf(base, '.').value;
    assert Extname(p) == base[k..];
    assert Extname(p)[1..] == base[k + 1..];
  }

  /** Adding a directory prefix does not change the extension. */
  lemma ExtnameOfPrefixed(dir: string, suffix: string, e: string)
    requires dir != [] && dir[|dir| - 1] == '/'
    requires '/' !in suffix && '.' !in suffix && suffix != "" && '/' !in e && '.' !in e
    ensures Extname(dir + suffix + "." + e) == "." + e
  {
    var name := suffix + "." + e;
    assert dir + suffix + "." + e == dir + name;
    assert name[|name| - 1] != '/' by {
      if e == [] { assert name[|name| - 1] == '.'; } else { assert name[|name| - 1] == e[|e| - 1]; }
    }
    LastSegment(dir, name);
    ExtnameByBasename(dir + name, name);
    ExtnameOfStemAndExt(suffix, e);
  }

  /** The extension depends only on the basename. */
  lemma ExtnameByBasename(p: string, q: string)
    requires Basename(p) == Basename(q)
    ensures Extname(p) == Extname(q)
  {
  }

  /** The basename of `dir + name` is the basename of `name` when `dir` ends in '/' and `name`
      is a non-empty name without a trailing '/'. */
  lemma LastSegment(dir: string, name: string)
    requires dir != [] && dir[|dir| - 1] == '/'
    requires name != [] && name[|name| - 1] != '/'
    ensures Basename(dir + name) == Basename(name)
  {
    var p := dir + name;
    assert p[|p| - 1] == name[|name| - 1];
    BasenameIsAfterLast(p);
    BasenameIsAfterLast(name);
    if '/' in name {
      var i := LastIndexOf(name, '/').value;
      assert LastIndexOf(p, '/').value == |dir| + i by {
        assert p[|dir| + i] == '/';
        assert p[|dir| + i + 1..] == name[i + 1..];
      }
    } else {
      assert p[|dir| - 1] == '/';
      assert p[|dir|..] == name;
    }
  }
}
