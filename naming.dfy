/**
 * Names and object-store keys: the municipality slug, the map link taken out
 * of a pasted iframe, the stored file name and scene id of an upload, the
 * scene id the panorama job derives, the pipeline service's municipal-prefix
 * stripping and asset paths, and the keys under which a tiled tour is uploaded.
 */
module Naming {
  import opened Text

  // ---------------------------------------------------------------------------
  // Municipality slug and the per-municipality tour document key
  // ---------------------------------------------------------------------------

  predicate IsSeparator(c: char) { c == ' ' || c == '/' || c == '\\' }

  /** The municipality name with spaces and slashes turned into underscores, trimmed, then lower-cased. */
  function MunicipalSlug(municipal: string): (slug: string)
    ensures forall i :: 0 <= i < |slug| ==> !IsSeparator(slug[i]) && !IsAsciiUpper(slug[i])
    ensures slug == [] || (!IsTrimSpace(slug[0]) && !IsTrimSpace(slug[|slug| - 1]))
  {
    var underscored := Underscore(municipal);
    TrimKeepsNoSeparator(underscored);
    ToLower(Trim(underscored))
  }

  function Underscore(s: string): (r: string)
    ensures |r| == |s|
    ensures forall i :: 0 <= i < |r| ==> !IsSeparator(r[i])
  {
    seq(|s|, i requires 0 <= i < |s| => if IsSeparator(s[i]) then '_' else s[i])
  }

  lemma TrimKeepsNoSeparator(s: string)
    requires forall i :: 0 <= i < |s| ==> !IsSeparator(s[i])
    ensures forall i :: 0 <= i < |Trim(s)| ==> !IsSeparator(Trim(s)[i])
  {
    var a, b :| 0 <= a <= b <= |s| && Trim(s) == s[a..b];
    forall i | 0 <= i < |Trim(s)| ensures !IsSeparator(Trim(s)[i]) {
      assert Trim(s)[i] == s[a + i];
    }
  }

  lemma TrimKeepsTrimmed(s: string)
    requires s == [] || (!IsTrimSpace(s[0]) && !IsTrimSpace(s[|s| - 1]))
    ensures Trim(s) == s
  {
  }

  /** Slugging a slug changes nothing. */
  lemma MunicipalSlugIdempotent(municipal: string)
    ensures MunicipalSlug(MunicipalSlug(municipal)) == MunicipalSlug(municipal)
  {
    var slug := MunicipalSlug(municipal);
    assert Underscore(slug) == slug;
    TrimKeepsTrimmed(slug);
    assert ToLower(slug) == slug;
  }

  /** The object-store key of a municipality's tour document, "{slug}/tour.xml". */
  function TourXmlKey(slug: string): (key: string)
    ensures |key| == |slug| + 9 && key[..|slug|] == slug && key[|slug|..] == "/tour.xml"
  {
    slug + "/tour.xml"
  }

  /** Two different slugs never share a tour document key. */
  lemma TourXmlKeyInjective(a: string, b: string)
    requires TourXmlKey(a) == TourXmlKey(b)
    ensures a == b
  {
    assert a == TourXmlKey(a)[..|a|];
  }

  /**
   * Municipality names that differ only in letter case and in a space for an
   * underscore get the same slug, and so share one tour document.
   */
  lemma SlugsMerge()
    ensures MunicipalSlug("Cebu City") == MunicipalSlug("cebu_city") == "cebu_city"
    ensures TourXmlKey(MunicipalSlug("Cebu City")) == TourXmlKey(MunicipalSlug("cebu_city"))
  {
    assert Underscore("Cebu City") == "Cebu_City";
    assert Underscore("cebu_city") == "cebu_city";
    TrimKeepsTrimmed("Cebu_City");
    TrimKeepsTrimmed("cebu_city");
    assert ToLower("Cebu_City") == "cebu_city";
    assert ToLower("cebu_city") == "cebu_city";
  }

  // ---------------------------------------------------------------------------
  // The map link of a pasted iframe
  // ---------------------------------------------------------------------------

  predicate IsQuote(c: char) { c == '"' || c == '\'' }

  /** PHP falsiness of a nullable string: null, "" and "0". */
  predicate IsFalsy(s: Option<string>) { s.None? || s.value == "" || s.value == "0" }

  /** `src=` at `p`, an opening quote, then the non-empty quote-free value `v`, then a quote. */
  predicate SrcAttrAt(s: string, p: int, v: string)
  {
    0 <= p && p + 5 + |v| < |s| && s[p..p + 4] == "src=" && IsQuote(s[p + 4]) &&
    v != [] && s[p + 5..p + 5 + |v|] == v && IsQuote(s[p + 5 + |v|]) &&
    forall i :: 0 <= i < |v| ==> !IsQuote(v[i])
  }

  function FirstQuote(s: string, from: nat): (q: Option<nat>)
    ensures q.Some? ==> from <= q.value < |s| && IsQuote(s[q.value])
    ensures q.Some? ==> forall j :: from <= j < q.value ==> !IsQuote(s[j])
    ensures q.None? ==> forall j :: from <= j < |s| ==> !IsQuote(s[j])
    decreases |s| - from
  {
    if from >= |s| then None else if IsQuote(s[from]) then Some(from) else FirstQuote(s, from + 1)
  }

  /** What `src=["']([^"']+)["']` captures when it matches at `p`. */
  function SrcValueAt(s: string, p: nat): (v: Option<string>)
    ensures v.Some? ==> SrcAttrAt(s, p, v.value)
    ensures v.None? ==> forall w :: !SrcAttrAt(s, p, w)
  {
    if p + 5 <= |s| && s[p..p + 4] == "src=" && IsQuote(s[p + 4]) then
      match FirstQuote(s, p + 5)
      case Some(q) =>
        if q > p + 5 then
          var v := s[p + 5..q];
          assert forall i :: 0 <= i < |v| ==> v[i] == s[p + 5 + i];
          Some(v)
        else
          assert forall w :: !SrcAttrAt(s, p, w) by {
            forall w ensures !SrcAttrAt(s, p, w) {
              if w != [] && p + 5 + |w| < |s| && s[p + 5..p + 5 + |w|] == w {
                assert w[0] == s[p + 5];
              }
            }
          }
          None
      case None =>
        assert forall w :: !SrcAttrAt(s, p, w) by {
          forall w ensures !SrcAttrAt(s, p, w) {
            if p + 5 + |w| < |s| {
              assert !IsQuote(s[p + 5 + |w|]);
            }
          }
        }
        None
    else None
  }

  /** preg_match's leftmost match of the src pattern at or after `from`. */
  function FindSrc(s: string, from: nat): (r: Option<(nat, string)>)
    ensures r.Some? ==> from <= r.value.0 && SrcAttrAt(s, r.value.0, r.value.1)
    ensures r.Some? ==> forall p, w :: from <= p < r.value.0 ==> !SrcAttrAt(s, p, w)
    ensures r.None? ==> forall p, w :: from <= p ==> !SrcAttrAt(s, p, w)
    decreases |s| - from
  {
    if from >= |s| then None
    else match SrcValueAt(s, from)
      case Some(v) => Some((from, v))
      case None => FindSrc(s, from + 1)
  }

  /**
   * extractIframeSrc: null for a falsy input; otherwise the value of the
   * leftmost quoted src attribute when there is one, else the input itself.
   */
  function ExtractIframeSrc(input: Option<string>): (r: Option<string>)
    ensures IsFalsy(input) <==> r.None?
    ensures !IsFalsy(input) && (forall p, w :: !SrcAttrAt(input.value, p, w)) ==> r == input
    ensures !IsFalsy(input) && (exists p, w :: SrcAttrAt(input.value, p, w)) ==>
              exists p :: SrcAttrAt(input.value, p, r.value) &&
                          forall p', w :: 0 <= p' < p ==> !SrcAttrAt(input.value, p', w)
  {
    if IsFalsy(input) then None
    else match FindSrc(input.value, 0)
      case Some(m) => Some(m.1)
      case None => input
  }

  // ---------------------------------------------------------------------------
  // Stored file name and scene id of an upload (store and update)
  // ---------------------------------------------------------------------------

  /** The upload's stored name: the clock reading, an underscore, then the client's file name with spaces turned into underscores. */
  function StoredFilename(time: nat, clientName: string): (f: string)
    ensures ' ' !in f
  {
    Decimal(time) + "_" + ReplaceChar(clientName, ' ', '_')
  }

  /** pathinfo($filename, PATHINFO_FILENAME) of the stored file name. */
  function UploadSceneId(time: nat, clientName: string): string
  {
    FilenameStem(StoredFilename(time, clientName))
  }

  lemma BasenameIsInfix(path: string)
    ensures exists i, j :: 0 <= i <= j <= |path| && Basename(path) == path[i..j]
  {
    var p := RTrimChar(path, '/');
    match LastIndexOf(p, '/')
    case None =>
      assert Basename(path) == path[0..|p|];
    case Some(k) =>
      assert Basename(path) == path[k + 1..|p|];
  }

  lemma FilenameStemIsInfix(path: string)
    ensures exists i, j :: 0 <= i <= j <= |path| && FilenameStem(path) == path[i..j]
  {
    BasenameIsInfix(path);
    var i, j :| 0 <= i <= j <= |path| && Basename(path) == path[i..j];
    var b := Basename(path);
    if LastIndexOf(b, '.').Some? {
      var k := LastIndexOf(b, '.').value;
      assert FilenameStem(path) == b[..k];
      InfixPrefix(path, i, j, k);
    } else {
      assert FilenameStem(path) == path[i..j];
    }
  }

  /** A scene id of an upload never contains a space. */
  lemma UploadSceneIdHasNoSpace(time: nat, clientName: string)
    ensures ' ' !in UploadSceneId(time, clientName)
  {
    var f := StoredFilename(time, clientName);
    FilenameStemIsInfix(f);
    var i, j :| 0 <= i <= j <= |f| && FilenameStem(f) == f[i..j];
    forall k | 0 <= k < j - i ensures f[i..j][k] != ' ' {
      assert f[i..j][k] == f[i + k];
    }
  }

  lemma {:induction false} LastIndexOfAfterPrefix(a: string, b: string, c: char)
    requires c !in a
    ensures LastIndexOf(a + b, c) == match LastIndexOf(b, c) case None => None case Some(k) => Some(|a| + k)
    decreases |b|
  {
    if b == [] {
      assert a + b == a;
      assert forall k :: 0 <= k < |a| ==> a[k] != c;
    } else if b[|b| - 1] == c {
    } else {
      assert (a + b)[..|a + b| - 1] == a + b[..|b| - 1];
      LastIndexOfAfterPrefix(a, b[..|b| - 1], c);
    }
  }

  /**
   * For a client file name without a '/', the scene id is the timestamp, an
   * underscore and the name (spaces turned into underscores) minus its last
   * extension.
   */
  lemma UploadSceneIdShape(time: nat, clientName: string)
    requires '/' !in clientName
    ensures UploadSceneId(time, clientName) ==
            Decimal(time) + "_" + DropExtension(ReplaceChar(clientName, ' ', '_'))
  {
    var head := Decimal(time) + "_";
    var tail := ReplaceChar(clientName, ' ', '_');
    var f := StoredFilename(time, clientName);
    assert f == head + tail;
    forall k | 0 <= k < |f| ensures f[k] != '/' {
      if k >= |head| {
        assert f[k] == tail[k - |head|];
        assert clientName[k - |head|] != '/';
      }
    }
    assert RTrimChar(f, '/') == f;
    assert Basename(f) == f;
    forall k | 0 <= k < |head| ensures head[k] != '.' {
      if k < |Decimal(time)| { assert IsDigit(head[k]); }
    }
    LastIndexOfAfterPrefix(head, tail, '.');
    match LastIndexOf(tail, '.')
    case None =>
    case Some(k) =>
      assert f[..|head| + k] == head + tail[..k];
  }

  // ---------------------------------------------------------------------------
  // The scene id of ProcessPanorama
  // ---------------------------------------------------------------------------

  /** The characters `[A-Za-z0-9_\-]` lets through. */
  predicate IsIdChar(c: char) { IsWordChar(c) || c == '-' }

  /** Every character outside letters, digits, `_` and `-` turned into an underscore. */
  function SanitizeId(s: string): (r: string)
    ensures |r| == |s|
    ensures forall i :: 0 <= i < |r| ==> IsIdChar(r[i])
    ensures forall i :: 0 <= i < |s| && IsIdChar(s[i]) ==> r[i] == s[i]
    ensures forall i :: 0 <= i < |s| && !IsIdChar(s[i]) ==> r[i] == '_'
  {
    seq(|s|, i requires 0 <= i < |s| => if IsIdChar(s[i]) then s[i] else '_')
  }

  /** An already clean id is left alone; in particular sanitising twice equals sanitising once. */
  lemma SanitizeIdFixesCleanIds(s: string)
    ensures (forall i :: 0 <= i < |s| ==> IsIdChar(s[i])) ==> SanitizeId(s) == s
    ensures SanitizeId(SanitizeId(s)) == SanitizeId(s)
  {
  }

  /** The job's scene id: the sanitised file name of the panorama without its extension. */
  function JobSceneId(panoramaPath: string): (id: string)
    ensures |id| == |FilenameStem(panoramaPath)|
    ensures forall i :: 0 <= i < |id| ==> IsIdChar(id[i])
  {
    SanitizeId(FilenameStem(panoramaPath))
  }

  // ---------------------------------------------------------------------------
  // Pipeline service: municipal prefix and asset paths
  // ---------------------------------------------------------------------------


  /** The path without its leading slashes, then without a leading "{slug}/". */
  function StripMunicipal(path: string, slug: string): (r: string)
    ensures r == [] || LTrimChar(path, '/') == r || LTrimChar(path, '/') == slug + "/" + r
    ensures !StartsWith(LTrimChar(path, '/'), slug + "/") ==> r == LTrimChar(path, '/')
    ensures StartsWith(LTrimChar(path, '/'), slug + "/") ==> LTrimChar(path, '/') == slug + "/" + r
  {
    var t := LTrimChar(path, '/');
    var prefix := slug + "/";
    if StartsWith(t, prefix) then
      assert t == prefix + t[|prefix|..];
      t[|prefix|..]
    else t
  }

  /** Only one municipal prefix goes: a doubled prefix leaves the second in place. */
  lemma StripMunicipalOnce(slug: string, rest: string)
    requires slug != [] && slug[0] != '/'
    ensures StripMunicipal(slug + "/" + slug + "/" + rest, slug) == slug + "/" + rest
  {
    var p := slug + "/" + slug + "/" + rest;
    assert LTrimChar(p, '/') == p;
    assert StartsWith(p, slug + "/");
    assert p[|slug + "/"|..] == slug + "/" + rest;
  }

  /** What the krpano tiler's own tour.xml says about the scene (thumb, preview, cube, multires). */
  datatype KrpanoConfig = KrpanoConfig(thumb: string, preview: string, cube: string, multires: string)

  datatype AssetPaths = AssetPaths(thumb: string, preview: string, cube: string, multires: string)

  const FallbackMultires := "512,1024,2048"

  /** The URL/fallback computation of processNewScene. */
  function ServiceAssetPaths(sceneId: string, slug: string, config: Option<KrpanoConfig>): (a: AssetPaths)
    ensures config.Some? ==> a.multires == config.value.multires
    ensures config.None? ==> a.multires == FallbackMultires
  {
    var basePath := slug + "/" + sceneId;
    match config
    case Some(c) =>
      AssetPaths(StripMunicipal(basePath + "/" + LTrimChar(c.thumb, '/'), slug),
                 StripMunicipal(basePath + "/" + LTrimChar(c.preview, '/'), slug),
                 StripMunicipal(basePath + "/" + LTrimChar(c.cube, '/'), slug),
                 c.multires)
    case None =>
      var tileBase := basePath + "/panos/" + sceneId + ".tiles";
      AssetPaths(tileBase + "/thumb.jpg", tileBase + "/preview.jpg",
                 tileBase + "/%s/l%l/%v/l%l_%s_%v_%h.jpg", FallbackMultires)
  }

  lemma StripMunicipalOfBase(slug: string, sceneId: string, rel: string)
    requires slug != [] && slug[0] != '/'
    ensures StripMunicipal(slug + "/" + sceneId + "/" + rel, slug) == sceneId + "/" + rel
  {
    var p := slug + "/" + sceneId + "/" + rel;
    assert LTrimChar(p, '/') == p;
    assert StartsWith(p, slug + "/");
    assert p[|slug + "/"|..] == sceneId + "/" + rel;
  }

  /**
   * With the tiler's config the service's paths are relative to the scene
   * folder: the municipal prefix is gone.
   */
  lemma ServiceConfigPaths(sceneId: string, slug: string, c: KrpanoConfig)
    requires slug != [] && slug[0] != '/'
    ensures var a := ServiceAssetPaths(sceneId, slug, Some(c));
            a.thumb == sceneId + "/" + LTrimChar(c.thumb, '/') &&
            a.preview == sceneId + "/" + LTrimChar(c.preview, '/') &&
            a.cube == sceneId + "/" + LTrimChar(c.cube, '/')
  {
    StripMunicipalOfBase(slug, sceneId, LTrimChar(c.thumb, '/'));
    StripMunicipalOfBase(slug, sceneId, LTrimChar(c.preview, '/'));
    StripMunicipalOfBase(slug, sceneId, LTrimChar(c.cube, '/'));
  }

  /**
   * Without it the fallback keeps the full "{slug}/{sceneId}/panos/{sceneId}.tiles"
   * prefix, which is exactly the municipal prefix more than the config branch.
   */
  lemma ServiceFallbackPaths(sceneId: string, slug: string)
    requires slug != [] && slug[0] != '/'
    ensures var tiles := slug + "/" + sceneId + "/panos/" + sceneId + ".tiles";
            ServiceAssetPaths(sceneId, slug, None) ==
              AssetPaths(tiles + "/thumb.jpg", tiles + "/preview.jpg", tiles + "/%s/l%l/%v/l%l_%s_%v_%h.jpg", "512,1024,2048")
    ensures StripMunicipal(slug + "/" + sceneId + "/panos/" + sceneId + ".tiles" + "/thumb.jpg", slug) ==
            sceneId + "/panos/" + sceneId + ".tiles/thumb.jpg"
  {
    assert StripMunicipal(slug + "/" + sceneId + "/panos/" + sceneId + ".tiles" + "/thumb.jpg", slug) ==
           sceneId + "/panos/" + sceneId + ".tiles/thumb.jpg" by {
      var rel := "panos/" + sceneId + ".tiles/thumb.jpg";
      assert slug + "/" + sceneId + "/panos/" + sceneId + ".tiles" + "/thumb.jpg" == slug + "/" + sceneId + "/" + rel;
      StripMunicipalOfBase(slug, sceneId, rel);
    }
  }

  // ---------------------------------------------------------------------------
  // Uploading a tiled tour folder (uploadFolderToS3)
  // ---------------------------------------------------------------------------

  /** One entry of the recursive directory listing. */
  datatype Entry = Entry(path: string, isDir: bool)

  /** One object written to the store: its key and the local file it comes from. */
  datatype Upload = Upload(key: string, localPath: string)

  const SkippedExtensions: seq<string> := ["exe", "bin", "sh", "bat", "cmd", "dll", "macos", "dat"]

  /** The two copies of uploadFolderToS3: the controller's skips executables and trims the key. */
  datatype Uploader = ControllerUploader | ServiceUploader
  {
    predicate Skips(path: string)
    {
      this == ControllerUploader && ToLower(Extension(path)) in SkippedExtensions
    }

    function Key(localFolder: string, remote: string, path: string): string
    {
      var relative := Substr(path, |localFolder| + 1);
      match this
      case ControllerUploader => TrimChar(remote + "/" + ReplaceChar(relative, '\\', '/'), '/')
      case ServiceUploader => ReplaceChar(remote + "/" + relative, '\\', '/')
    }

    /** The uploads for a listing, in listing order. */
    function Uploads(localFolder: string, remote: string, entries: seq<Entry>): seq<Upload>
    {
      if entries == [] then []
      else
        var e := entries[|entries| - 1];
        Uploads(localFolder, remote, entries[..|entries| - 1]) +
        (if e.isDir || Skips(e.path) then [] else [Upload(Key(localFolder, remote, e.path), e.path)])
    }
  }

  /** The loop of uploadFolderToS3; nothing is uploaded when the local folder is missing (controller). */
  method UploadFolder(uploader: Uploader, localFolder: string, remote: string, folderExists: bool, entries: seq<Entry>)
    returns (uploads: seq<Upload>)
    ensures uploader == ControllerUploader && !folderExists ==> uploads == []
    ensures uploader == ServiceUploader || folderExists ==> uploads == uploader.Uploads(localFolder, remote, entries)
  {
    uploads := [];
    if uploader == ControllerUploader && !folderExists {
      return;
    }
    var i := 0;
    while i < |entries|
      invariant 0 <= i <= |entries|
      invariant uploads == uploader.Uploads(localFolder, remote, entries[..i])
    {
      var e := entries[i];
      assert entries[..i + 1][..i] == entries[..i];
      if !e.isDir && !uploader.Skips(e.path) {
        uploads := uploads + [Upload(uploader.Key(localFolder, remote, e.path), e.path)];
      }
      i := i + 1;
    }
    assert entries[..|entries|] == entries;
  }

  /** Every upload is a listed file the uploader does not skip, written under its key. */
  lemma {:induction false} UploadsSound(uploader: Uploader, localFolder: string, remote: string, entries: seq<Entry>)
    ensures forall u :: u in uploader.Uploads(localFolder, remote, entries) ==>
              !uploader.Skips(u.localPath) && Entry(u.localPath, false) in entries &&
              u.key == uploader.Key(localFolder, remote, u.localPath)
  {
    if entries != [] {
      var init := entries[..|entries| - 1];
      UploadsSound(uploader, localFolder, remote, init);
      assert entries == init + [entries[|entries| - 1]];
    }
  }

  /** Every listed file the uploader does not skip is uploaded under its key. */
  lemma {:induction false} UploadsComplete(uploader: Uploader, localFolder: string, remote: string, entries: seq<Entry>)
    ensures forall e :: e in entries && !e.isDir && !uploader.Skips(e.path) ==>
              Upload(uploader.Key(localFolder, remote, e.path), e.path) in uploader.Uploads(localFolder, remote, entries)
  {
    if entries != [] {
      var init := entries[..|entries| - 1];
      UploadsComplete(uploader, localFolder, remote, init);
      assert entries == init + [entries[|entries| - 1]];
    }
  }

  /** The controller's keys have no leading or trailing '/'. */
  lemma ControllerKeyTrimmed(localFolder: string, remote: string, path: string)
    ensures var key := ControllerUploader.Key(localFolder, remote, path);
            key == [] || (key[0] != '/' && key[|key| - 1] != '/')
  {
    var rel := ReplaceChar(Substr(path, |localFolder| + 1), '\\', '/');
    var t := LTrimChar(remote + "/" + rel, '/');
    var key := RTrimChar(t, '/');
    assert ControllerUploader.Key(localFolder, remote, path) == key;
    if key != [] {
      assert key == t[..|key|];
    }
  }

  /** What the controller writes never has a key starting or ending with '/'. */
  lemma ControllerUploadKeysTrimmed(localFolder: string, remote: string, entries: seq<Entry>)
    ensures forall u :: u in ControllerUploader.Uploads(localFolder, remote, entries) ==>
              u.key == [] || (u.key[0] != '/' && u.key[|u.key| - 1] != '/')
  {
    forall u | u in ControllerUploader.Uploads(localFolder, remote, entries)
      ensures u.key == [] || (u.key[0] != '/' && u.key[|u.key| - 1] != '/')
    {
      assert u.key == ControllerUploader.Key(localFolder, remote, u.localPath) by {
        UploadsSound(ControllerUploader, localFolder, remote, entries);
      }
      ControllerKeyTrimmed(localFolder, remote, u.localPath);
    }
  }

  /** A file the controller skips as executable is still uploaded by the service. */
  lemma ServiceUploadsSkippedFiles(localFolder: string, remote: string, entries: seq<Entry>, e: Entry)
    requires e in entries && !e.isDir && ControllerUploader.Skips(e.path)
    ensures forall u :: u in ControllerUploader.Uploads(localFolder, remote, entries) ==> u.localPath != e.path
    ensures Upload(ServiceUploader.Key(localFolder, remote, e.path), e.path) in ServiceUploader.Uploads(localFolder, remote, entries)
  {
    UploadsSound(ControllerUploader, localFolder, remote, entries);
    UploadsComplete(ServiceUploader, localFolder, remote, entries);
  }

  /**
   * A controller key is the remote folder, '/', and the relative path with
   * back-slashes turned into '/', whenever neither end needs trimming.
   */
  lemma ControllerKeyShape(localFolder: string, remote: string, path: string)
    requires remote != [] && remote[0] != '/'
    requires var rel := ReplaceChar(Substr(path, |localFolder| + 1), '\\', '/');
             rel != [] && rel[|rel| - 1] != '/'
    ensures var rel := ReplaceChar(Substr(path, |localFolder| + 1), '\\', '/');
            ControllerUploader.Key(localFolder, remote, path) == remote + "/" + rel && '\\' !in rel
  {
    var rel := ReplaceChar(Substr(path, |localFolder| + 1), '\\', '/');
    var k := remote + "/" + rel;
    assert LTrimChar(k, '/') == k;
    assert RTrimChar(k, '/') == k;
  }
}
