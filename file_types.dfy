/**
 * Choosing the icon of a file. The three components each have their own
 * `getFileIcon`; here the icon is the category it stands for.
 *  - Dashboard: by the extension of the file name alone.
 *  - AccessSharedFile: by the content type or the extension.
 *  - Upload: by the content type alone.
 * Each tests image, document, audio, video and archive in that order; the
 * first test that succeeds decides, and a file that passes none is Other.
 */
module FileTypes {
  import opened Text

  datatype Category = Image | Document | Audio | Video | Archive | Other

  const DashboardImageExtensions: seq<string> := ["jpg", "jpeg", "png", "gif", "svg", "webp"]
  const SharedImageExtensions: seq<string> := ["jpg", "jpeg", "png", "gif", "webp"]
  const DocumentExtensions: seq<string> := ["pdf", "doc", "docx", "txt", "rtf"]
  const AudioExtensions: seq<string> := ["mp3", "wav", "ogg", "flac"]
  const VideoExtensions: seq<string> := ["mp4", "avi", "mov", "wmv", "mkv"]
  const ArchiveExtensions: seq<string> := ["zip", "rar", "7z", "tar", "gz"]

  /**
   * `filename.split('.').pop().toLowerCase()`: the lower-cased text after
   * the last '.', or the whole lower-cased name when it has no '.'.
   */
  function Extension(filename: string): (ext: string)
    ensures '.' !in ext
    ensures |ext| <= |filename| && ext == ToLower(filename[|filename| - |ext|..])
    ensures |ext| < |filename| ==> filename[|filename| - |ext| - 1] == '.'
    ensures |ext| == |filename| <==> '.' !in filename
  {
    var raw := LastPart(filename, '.');
    var ext := ToLower(raw);
    assert '.' !in ext by {
      forall i | 0 <= i < |ext| ensures ext[i] != '.' {
        assert raw[i] != '.';
      }
    }
    ext
  }

  /** The icon category Dashboard's `getFileIcon` picks from a file name. */
  function ClassifyName(filename: string): Category
  {
    CategoryOfExtension(Extension(filename))
  }

  /** Dashboard's tests of a lower-cased extension, in order. */
  function CategoryOfExtension(ext: string): Category
  {
    if ext in DashboardImageExtensions then Image
    else if ext in DocumentExtensions then Document
    else if ext in AudioExtensions then Audio
    else if ext in VideoExtensions then Video
    else if ext in ArchiveExtensions then Archive
    else Other
  }

  /** `contentType || ''` followed by the content-type tests, in order. */
  function ClassifyType(contentType: string): Category
  {
    if StartsWith(contentType, "image/") then Image
    else if Contains(contentType, "pdf") || Contains(contentType, "document") || Contains(contentType, "text") then Document
    else if StartsWith(contentType, "audio/") then Audio
    else if StartsWith(contentType, "video/") then Video
    else if Contains(contentType, "zip") || Contains(contentType, "compressed") then Archive
    else Other
  }

  /**
   * AccessSharedFile's `getFileIcon`: each category is chosen by its
   * content-type test or by its extension list, which for images lacks "svg".
   */
  function ClassifyShared(filename: string, contentType: string): Category
  {
    var ext := Extension(filename);
    if StartsWith(contentType, "image/") || ext in SharedImageExtensions then Image
    else if Contains(contentType, "pdf") || Contains(contentType, "document") || Contains(contentType, "text")
            || ext in DocumentExtensions then Document
    else if StartsWith(contentType, "audio/") || ext in AudioExtensions then Audio
    else if StartsWith(contentType, "video/") || ext in VideoExtensions then Video
    else if Contains(contentType, "zip") || Contains(contentType, "compressed") || ext in ArchiveExtensions then Archive
    else Other
  }

  /** The extension lists of the five categories have no extension in common. */
  predicate ListsDisjoint()
  {
    && (forall e :: e in DashboardImageExtensions ==> e !in DocumentExtensions && e !in AudioExtensions && e !in VideoExtensions && e !in ArchiveExtensions)
    && (forall e :: e in DocumentExtensions ==> e !in AudioExtensions && e !in VideoExtensions && e !in ArchiveExtensions)
    && (forall e :: e in AudioExtensions ==> e !in VideoExtensions && e !in ArchiveExtensions)
    && (forall e :: e in VideoExtensions ==> e !in ArchiveExtensions)
  }

  lemma ImageListDisjoint()
    ensures forall e :: e in DashboardImageExtensions ==> e !in DocumentExtensions && e !in AudioExtensions && e !in VideoExtensions && e !in ArchiveExtensions
  {
  }

  lemma DocumentListDisjoint()
    ensures forall e :: e in DocumentExtensions ==> e !in AudioExtensions && e !in VideoExtensions && e !in ArchiveExtensions
  {
  }

  lemma ExtensionListsDisjoint()
    ensures ListsDisjoint()
  {
    ImageListDisjoint();
    DocumentListDisjoint();
  }

  /** AccessSharedFile's image list is Dashboard's without "svg". */
  lemma SharedImagesLackSvg(ext: string)
    ensures ext in SharedImageExtensions <==> ext in DashboardImageExtensions && ext != "svg"
  {
  }

  /**
   * Because the lists are disjoint, the order of Dashboard's tests does not
   * matter: a name is in a category exactly when its extension is on that
   * category's list, and it is Other exactly when it is on none of them.
   */
  lemma ClassifyNameByList(filename: string)
    ensures var ext := Extension(filename);
      && (ClassifyName(filename) == Image <==> ext in DashboardImageExtensions)
      && (ClassifyName(filename) == Document <==> ext in DocumentExtensions)
      && (ClassifyName(filename) == Audio <==> ext in AudioExtensions)
      && (ClassifyName(filename) == Video <==> ext in VideoExtensions)
      && (ClassifyName(filename) == Archive <==> ext in ArchiveExtensions)
      && (ClassifyName(filename) == Other <==>
            ext !in DashboardImageExtensions + DocumentExtensions + AudioExtensions + VideoExtensions + ArchiveExtensions)
  {
    ExtensionListsDisjoint();
  }

  /** The case of the name does not matter to the extension. */
  lemma ExtensionIgnoresCase(filename: string)
    ensures Extension(ToLower(filename)) == Extension(filename)
  {
    var raw := LastPart(filename, '.');
    var lowered := ToLower(filename);
    var lraw := LastPart(lowered, '.');
    ToLowerKeepsChar(filename, '.');
    assert |lraw| == |raw|;
    assert lraw == ToLower(raw);
    ToLowerIdempotent(raw);
  }

  /** Hence the case of the name does not matter to Dashboard's classifier. */
  lemma ClassifyNameIgnoresCase(filename: string)
    ensures ClassifyName(ToLower(filename)) == ClassifyName(filename)
  {
    ExtensionIgnoresCase(filename);
  }

  /**
   * Without a content type, AccessSharedFile agrees with Dashboard on every
   * name except those ending in ".svg", which it classifies as Other.
   */
  lemma ClassifySharedWithoutType(filename: string)
    ensures ClassifyShared(filename, "") == (if Extension(filename) == "svg" then Other else ClassifyName(filename))
  {
    SharedImagesLackSvg(Extension(filename));
    NoTypeMatchesNothing();
    ExtensionListsDisjoint();
  }

  /** A name without a '.' is its own extension, lower-cased. */
  lemma ExtensionWithoutDot(filename: string)
    requires '.' !in filename
    ensures Extension(filename) == ToLower(filename)
  {
    assert LastPart(filename, '.') == filename;
  }

  /** The empty content type passes none of the content-type tests. */
  lemma NoTypeMatchesNothing()
    ensures ClassifyType("") == Other
    ensures forall t :: t in ["pdf", "document", "text", "zip", "compressed"] ==> !Contains("", t)
  {
  }

  /**
   * When the extension is on none of the lists, AccessSharedFile decides by
   * the content type alone, exactly as Upload's classifier does.
   */
  lemma ClassifySharedUnknownExtension(filename: string, contentType: string)
    requires Extension(filename) !in DashboardImageExtensions + DocumentExtensions + AudioExtensions + VideoExtensions + ArchiveExtensions
    ensures ClassifyShared(filename, contentType) == ClassifyType(contentType)
  {
    ExtensionListsDisjoint();
  }

  /** A content type starting with "image/" wins whatever the file is called. */
  lemma ImageTypeWins(filename: string, contentType: string)
    requires StartsWith(contentType, "image/")
    ensures ClassifyShared(filename, contentType) == Image && ClassifyType(contentType) == Image
  {
  }
}
