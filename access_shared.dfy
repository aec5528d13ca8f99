/**
 * The page that opens a share token: it asks the server about the file,
 * falls back to downloading it, names the download after the
 * Content-Disposition header, and shows the file's icon, size and type.
 * Each server answer is a parameter; the methods report the requests they
 * issue and the file they hand to the browser.
 */
module AccessShared {
  import opened Common
  import opened Text
  import opened FileTypes
  import opened Sizes

  // ---------------------------------------------------------------- Content-Disposition

  /** The literal part of the pattern `filename="(.+?)"`. */
  const Marker: string := "filename=\""

  /** The name used when the header gives none. */
  const DefaultDownloadName: string := "downloaded-file"

  /**
   * The pattern matches at `start` with a capture of `k` characters: the
   * marker, then `k >= 1` characters none of which ends a line (the regex
   * `.`), then a quote.
   */
  predicate IsMatchAt(s: string, start: int, k: int)
  {
    && 0 <= start && 1 <= k
    && start + |Marker| + k < |s|
    && s[start..start + |Marker|] == Marker
    && (forall t :: start + |Marker| <= t < start + |Marker| + k ==> !IsLineTerminator(s[t]))
    && s[start + |Marker| + k] == '"'
  }

  /**
   * The lazy `.+?` after a capture start `p`: the first quote at or after
   * `q`, provided no line ends on the way.
   */
  function CloseQuote(s: string, p: nat, q: nat): (r: Option<nat>)
    requires p < q <= |s|
    requires forall t :: p <= t < q ==> !IsLineTerminator(s[t])
    ensures r.Some? ==> IsMatchCapture(s, p, r.value - p) && r.value >= q
    ensures r.Some? ==> forall j :: q <= j < r.value ==> s[j] != '"'
    ensures r.None? ==> forall k :: q - p <= k ==> !IsMatchCapture(s, p, k)
    decreases |s| - q
  {
    if q == |s| then None
    else if s[q] == '"' then Some(q)
    else if IsLineTerminator(s[q]) then None
    else CloseQuote(s, p, q + 1)
  }

  /** After a capture start `p`, `k` capture characters without a line end, then a quote. */
  predicate IsMatchCapture(s: string, p: int, k: int)
  {
    && 0 <= p && 1 <= k && p + k < |s|
    && (forall t :: p <= t < p + k ==> !IsLineTerminator(s[t]))
    && s[p + k] == '"'
  }

  lemma MatchAtIffCapture(s: string, start: int, k: int)
    requires 0 <= start
    ensures IsMatchAt(s, start, k) <==>
      start + |Marker| <= |s| && s[start..start + |Marker|] == Marker && IsMatchCapture(s, start + |Marker|, k)
  {
  }

  /** The shortest capture of a match at `start`, if the pattern matches there. */
  function MatchAt(s: string, start: nat): (r: Option<nat>)
    ensures r.Some? ==> IsMatchAt(s, start, r.value)
    ensures r.Some? ==> forall k :: 1 <= k < r.value ==> !IsMatchAt(s, start, k)
    ensures r.None? ==> forall k :: !IsMatchAt(s, start, k)
  {
    var p := start + |Marker|;
    if p < |s| && s[start..p] == Marker && !IsLineTerminator(s[p]) then
      var close := CloseQuote(s, p, p + 1);
      MatchAtCases(s, start, close);
      if close.Some? then Some(close.value - p) else None
    else
      NoMatchAt(s, start);
      None
  }

  /** Where the lazy capture from the marker at `start` ends, it is the shortest match there. */
  lemma MatchAtCases(s: string, start: nat, close: Option<nat>)
    requires start + |Marker| < |s| && s[start..start + |Marker|] == Marker && !IsLineTerminator(s[start + |Marker|])
    requires close == CloseQuote(s, start + |Marker|, start + |Marker| + 1)
    ensures close.Some? ==> IsMatchAt(s, start, close.value - (start + |Marker|))
    ensures close.Some? ==> forall k :: 1 <= k < close.value - (start + |Marker|) ==> !IsMatchAt(s, start, k)
    ensures close.None? ==> forall k :: !IsMatchAt(s, start, k)
  {
    var p := start + |Marker|;
    if close.Some? {
      forall k | 1 <= k < close.value - p ensures !IsMatchAt(s, start, k) {
        assert s[p + k] != '"';
      }
    } else {
      forall k ensures !IsMatchAt(s, start, k) {
        MatchAtIffCapture(s, start, k);
      }
    }
  }

  /** Without the marker, or with a line end right after it, there is no match at `start`. */
  lemma NoMatchAt(s: string, start: nat)
    requires !(start + |Marker| < |s| && s[start..start + |Marker|] == Marker && !IsLineTerminator(s[start + |Marker|]))
    ensures forall k :: !IsMatchAt(s, start, k)
  {
  }

  datatype Match = Match(start: nat, length: nat)

  /** `s.match(/filename="(.+?)"/)` searching from `from`: the leftmost start, then the shortest capture there. */
  function FirstMatch(s: string, from: nat): (r: Option<Match>)
    ensures r.Some? ==> r.value.start >= from && IsMatchAt(s, r.value.start, r.value.length)
    ensures r.Some? ==> forall a, k :: from <= a < r.value.start ==> !IsMatchAt(s, a, k)
    ensures r.Some? ==> forall k :: 1 <= k < r.value.length ==> !IsMatchAt(s, r.value.start, k)
    ensures r.None? ==> forall a, k :: from <= a ==> !IsMatchAt(s, a, k)
    decreases |s| - from
  {
    if from > |s| then None
    else
      match MatchAt(s, from)
      case Some(k) => Some(Match(from, k))
      case None => FirstMatch(s, from + 1)
  }

  /** The text captured by a match. */
  function Captured(s: string, m: Match): (c: string)
    requires IsMatchAt(s, m.start, m.length)
    ensures |c| == m.length >= 1
    ensures forall i :: 0 <= i < |c| ==> !IsLineTerminator(c[i])
  {
    s[m.start + |Marker|..m.start + |Marker| + m.length]
  }

  /**
   * The name of the downloaded file: the capture of the first match in a
   * truthy Content-Disposition header, and "downloaded-file" otherwise.
   */
  function DownloadName(disposition: Option<string>): (name: string)
    ensures name != []
    ensures !Truthy(disposition) ==> name == DefaultDownloadName
    ensures Truthy(disposition) && FirstMatch(disposition.value, 0).None? ==> name == DefaultDownloadName
    ensures Truthy(disposition) && FirstMatch(disposition.value, 0).Some? ==>
      name == Captured(disposition.value, FirstMatch(disposition.value, 0).value)
  {
    if Truthy(disposition) then
      match FirstMatch(disposition.value, 0)
      case Some(m) => Captured(disposition.value, m)
      case None => DefaultDownloadName
    else DefaultDownloadName
  }

  /** A file name a header can carry between quotes and get back unchanged. */
  predicate QuotableName(name: string)
  {
    name != [] && forall i :: 0 <= i < |name| ==> name[i] != '"' && !IsLineTerminator(name[i])
  }

  /**
   * A header `pre + filename="name"` + anything gives back `name`, as long
   * as `pre` holds no 'f' (so no earlier match can start there).
   */
  lemma DownloadNameRoundTrip(pre: string, name: string, rest: string)
    requires QuotableName(name)
    requires 'f' !in pre
    ensures DownloadName(Some(pre + Marker + name + "\"" + rest)) == name
  {
    var s := pre + Marker + name + "\"" + rest;
    var a := |pre|;
    var p := a + |Marker|;
    assert s[a..p] == Marker;
    assert s[p..p + |name|] == name;
    assert s[p + |name|] == '"';
    assert IsMatchAt(s, a, |name|);
    forall a', k | 0 <= a' < a ensures !IsMatchAt(s, a', k) {
      assert s[a'] == pre[a'];
    }
    forall k | 1 <= k < |name| ensures !IsMatchAt(s, a, k) {
      assert s[p + k] == name[k];
    }
    var m := FirstMatch(s, 0);
    assert m.Some? && m.value.start == a && m.value.length == |name|;
  }

  /** The header the server sends, `attachment; filename="name"`, names the file `name`. */
  lemma AttachmentRoundTrip(name: string)
    requires QuotableName(name)
    ensures DownloadName(Some("attachment; " + Marker + name + "\"")) == name
  {
    DownloadNameRoundTrip("attachment; ", name, []);
    assert "attachment; " + Marker + name + "\"" + [] == "attachment; " + Marker + name + "\"";
  }

  /** A header without the marker, or an empty one, gives the default name. */
  lemma DownloadNameWithoutMarker(disposition: string)
    requires forall a :: !OccursAt(disposition, Marker, a)
    ensures DownloadName(Some(disposition)) == DefaultDownloadName
  {
    if FirstMatch(disposition, 0).Some? {
      var m := FirstMatch(disposition, 0).value;
      assert OccursAt(disposition, Marker, m.start);
    }
  }

  // ---------------------------------------------------------------- file size

  /**
   * `formatFileSize` as written: a missing or zero size is "Unknown size",
   * so the "0 Bytes" branch is never taken; anything else is scaled with
   * the unit `sizes[i]`, past the end of the list from 1024^4 bytes on.
   */
  function FormatFileSizeAsWritten(bytes: Option<nat>): SizeText
  {
    if bytes.None? || bytes.value == 0 then UnknownSize
    else if bytes.value == 0 then ZeroBytes
    else Sized(ScaleAsWritten(bytes.value))
  }

  /** One tebibyte is shown in the unit "undefined". */
  lemma FormatFileSizeAsWrittenTebibyte()
    ensures FormatFileSizeAsWritten(Some(1099511627776)) == Sized(ScaleAsWritten(1099511627776))
    ensures FormatFileSizeAsWritten(Some(1099511627776)).scaled.unit == "undefined"
  {
    ScaleAsWrittenTebibyte();
  }

  /**
   * `formatFileSize` with the unit capped at "GB": "Unknown size" exactly
   * for a missing or zero size, never "0 Bytes", and otherwise the size in
   * one of the four units.
   */
  function FormatFileSize(bytes: Option<nat>): (t: SizeText)
    ensures t == UnknownSize <==> bytes.None? || bytes.value == 0
    ensures t != ZeroBytes
    ensures t.Sized? ==> t.scaled == Scale(bytes.value) && t.scaled.unit in Units
    ensures t.Sized? && bytes.value < Pow(1024, 4) ==> t == FormatFileSizeAsWritten(bytes)
  {
    if bytes.None? || bytes.value == 0 then UnknownSize
    else if bytes.value == 0 then ZeroBytes
    else
      ScaleAgreesBelowTebibyte(bytes.value);
      Sized(Scale(bytes.value))
  }

  /** The size line is drawn only for a truthy size, so it never reads "Unknown size" or "0 Bytes". */
  lemma ShownSizeIsScaled(size: Option<nat>)
    requires size.Some? && size.value != 0
    ensures FormatFileSize(size).Sized?
  {
  }

  // ---------------------------------------------------------------- what the page shows

  /**
   * What the page knows about the file. An empty string stands for a missing
   * field; `size` is None when the answer had no size.
   */
  datatype FileInfo = FileInfo(filename: string, size: Option<nat>, contentType: string, downloaded: bool)

  /** The placeholder the page stores when the info answer has no body. */
  const PlaceholderInfo: FileInfo := FileInfo("Shared File", None, "", false)

  /** The title: `fileInfo.filename || 'Shared File'`. */
  function Title(info: FileInfo): (t: string)
    ensures t != []
    ensures info.filename != [] ==> t == info.filename
  {
    OrElse(info.filename, "Shared File")
  }

  /** The icon: AccessSharedFile's classifier on `fileInfo.filename || 'file'` and the content type. */
  function Icon(info: FileInfo): Category
  {
    ClassifyShared(OrElse(info.filename, "file"), info.contentType)
  }

  /** A file without a name or a type shows the generic icon. */
  lemma IconOfUnnamedUntyped(info: FileInfo)
    requires info.filename == [] && info.contentType == []
    ensures Icon(info) == Other
  {
    var name := "file";
    assert '.' !in name;
    ExtensionWithoutDot(name);
    assert ToLower(name) == name;
    ClassifySharedUnknownExtension(name, "");
    NoTypeMatchesNothing();
  }

  /** `contentType.split('/')[1]?.toUpperCase() || 'File'`. */
  function TypeLabel(contentType: string): (t: string)
    ensures t != []
  {
    var parts := Split(contentType, '/');
    if |parts| >= 2 then OrElse(ToUpper(parts[1]), "File") else "File"
  }

  /** A type without a '/' is labelled "File". */
  lemma TypeLabelWithoutSlash(contentType: string)
    requires '/' !in contentType
    ensures TypeLabel(contentType) == "File"
  {
    SplitNoSeparator(contentType, '/');
  }

  /**
   * Written as its '/'-separated segments, a type is labelled with its
   * second segment upper-cased, or "File" when that segment is empty.
   */
  lemma TypeLabelOfSegments(segments: seq<string>)
    requires |segments| >= 2
    requires forall i :: 0 <= i < |segments| ==> '/' !in segments[i]
    ensures TypeLabel(Join(segments, '/')) == if segments[1] == [] then "File" else ToUpper(segments[1])
  {
    SplitJoin(segments, '/');
  }

  lemma TypeLabelExample()
    ensures TypeLabel(Join(["application", "pdf"], '/')) == ToUpper("pdf")
  {
    TypeLabelOfSegments(["application", "pdf"]);
  }

  // ---------------------------------------------------------------- the page's state

  /** The server's answer to the download request. */
  datatype Download = Download(disposition: Option<string>, contentType: string, byteLength: nat)

  /** What the page hands to the browser to save. */
  datatype SavedFile = SavedFile(name: string, blobType: string, byteLength: nat)

  datatype AccessError =
    | NoError
    | MissingToken
    | AccessFailed(serverError: string)
    | PasteFailed

  function ErrorText(e: AccessError): string
  {
    match e
    case NoError => ""
    case MissingToken => "Please enter a share token"
    case AccessFailed(s) => OrElse(s, "Failed to access this file. The link may be invalid or expired.")
    case PasteFailed => "Unable to paste from clipboard. Please paste manually."
  }

  datatype Request = InfoRequest(token: string) | LinkRequest(token: string)

  /** The file saved for a download answer: named by its header, typed by its content type or as bytes. */
  function SavedFileOf(d: Download): (f: SavedFile)
    ensures f.name != [] && f.blobType != []
  {
    SavedFile(DownloadName(d.disposition), OrElse(d.contentType, "application/octet-stream"), d.byteLength)
  }

  /** The info recorded after a download, when the page had none. */
  function DownloadedInfo(d: Download): (info: FileInfo)
    ensures Title(info) == info.filename
    ensures info.downloaded && info.size.Some?
  {
    FileInfo(DownloadName(d.disposition), Some(d.byteLength), d.contentType, true)
  }

  /**
   * The page shows what it saved: the recorded info's title is the saved
   * file's name, from the header, and its size the saved byte count.
   */
  lemma DownloadedInfoDescribesSavedFile(d: Download)
    ensures Title(DownloadedInfo(d)) == SavedFileOf(d).name == DownloadName(d.disposition)
    ensures DownloadedInfo(d).size == Some(SavedFileOf(d).byteLength)
    ensures DownloadedInfo(d).contentType == d.contentType
  {
  }

  class AccessPage {
    var token: string
    var loading: bool
    var error: AccessError
    var fileInfo: Option<FileInfo>

    constructor ()
      ensures token == [] && !loading && error == NoError && fileInfo == None
    {
      token, loading, error, fileInfo := [], false, NoError, None;
    }

    /**
     * `handleDownload`, run with `snapshot`, the value of `fileInfo` its
     * closure captured. A blank token only sets the error. Otherwise one
     * request; on success the file is saved and, only if the snapshot was
     * empty, its info recorded; on failure the error is set and the info
     * dropped.
     */
    method HandleDownload(snapshot: Option<FileInfo>, response: ApiResult<Download>)
      returns (requests: seq<Request>, saved: Option<SavedFile>)
      modifies this
      ensures IsBlank(old(token)) ==>
        requests == [] && saved == None && error == MissingToken && fileInfo == old(fileInfo) && loading == old(loading)
      ensures !IsBlank(old(token)) ==> requests == [LinkRequest(old(token))] && !loading
      ensures !IsBlank(old(token)) && response.Ok? ==>
        && saved == Some(SavedFileOf(response.value)) && error == NoError
        && fileInfo == (if snapshot.None? then Some(DownloadedInfo(response.value)) else old(fileInfo))
      ensures !IsBlank(old(token)) && response.Fail? ==>
        saved == None && error == AccessFailed([]) && fileInfo == None
      ensures token == old(token)
    {
      if IsBlank(token) {
        error := MissingToken;
        return [], None;
      }
      loading := true;
      error := NoError;
      requests := [LinkRequest(token)];
      match response {
        case Ok(d) =>
          saved := Some(SavedFileOf(d));
          if snapshot.None? {
            fileInfo := Some(DownloadedInfo(d));
          }
        case Fail(_) =>
          // The request asks for an array buffer, so a failed answer's body
          // is bytes too and has no `error` field: the default text shows.
          saved := None;
          error := AccessFailed([]);
          fileInfo := None;
      }
      loading := false;
    }

    /**
     * `handleSearch`: a blank token only sets the error. Otherwise the info
     * is cleared and asked for; an answer is stored (or the placeholder when
     * it is empty), and a failure falls back to the download, whose closure
     * still sees the info from before the search.
     */
    method HandleSearch(info: ApiResult<Option<FileInfo>>, download: ApiResult<Download>)
      returns (requests: seq<Request>, saved: Option<SavedFile>)
      modifies this
      ensures IsBlank(old(token)) ==>
        requests == [] && saved == None && error == MissingToken && fileInfo == old(fileInfo) && loading == old(loading)
      ensures !IsBlank(old(token)) ==> !loading && |requests| >= 1 && requests[0] == InfoRequest(old(token))
      ensures !IsBlank(old(token)) && info.Ok? ==>
        && requests == [InfoRequest(old(token))] && saved == None && error == NoError
        && fileInfo == Some(if info.value.Some? then info.value.value else PlaceholderInfo)
      ensures !IsBlank(old(token)) && info.Fail? ==>
        requests == [InfoRequest(old(token)), LinkRequest(old(token))]
      ensures !IsBlank(old(token)) && info.Fail? && download.Ok? ==>
        && saved == Some(SavedFileOf(download.value)) && error == NoError
        && fileInfo == (if old(fileInfo).None? then Some(DownloadedInfo(download.value)) else None)
      ensures !IsBlank(old(token)) && info.Fail? && download.Fail? ==>
        saved == None && error == AccessFailed([]) && fileInfo == None
      ensures token == old(token)
    {
      if IsBlank(token) {
        error := MissingToken;
        return [], None;
      }
      var snapshot := fileInfo;
      loading := true;
      error := NoError;
      fileInfo := None;
      match info {
        case Ok(data) =>
          fileInfo := Some(if data.Some? then data.value else PlaceholderInfo);
          requests, saved := [InfoRequest(token)], None;
        case Fail(_) =>
          var more;
          more, saved := HandleDownload(snapshot, download);
          requests := [InfoRequest(token)] + more;
      }
      loading := false;
    }

    /** `handlePaste`: the clipboard text, trimmed, becomes the token; an unreadable clipboard only sets the error. */
    method HandlePaste(clipboard: Option<string>)
      modifies this
      ensures clipboard.Some? ==> token == Trim(clipboard.value) && error == old(error)
      ensures clipboard.None? ==> token == old(token) && error == PasteFailed
      ensures fileInfo == old(fileInfo) && loading == old(loading)
    {
      if clipboard.Some? {
        token := Trim(clipboard.value);
      } else {
        error := PasteFailed;
      }
    }

    /** `handleClear`: back to an empty token, no info and no error. */
    method HandleClear()
      modifies this
      ensures token == [] && fileInfo == None && error == NoError
      ensures IsBlank(token)
      ensures loading == old(loading)
    {
      token, fileInfo, error := [], None, NoError;
    }
  }
}
