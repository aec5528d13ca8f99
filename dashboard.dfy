/**
 * The Dashboard's client-side logic over the list of the user's own files:
 * the search-plus-category filter, the storage total, and the selection of
 * file ids with its toggle, select-all box and bulk actions.
 */
module Dashboard {
  import opened Common
  import opened Text
  import opened Seqs
  import opened FileTypes

  /** An entry of the owned-file list: `_id`, `filename`, and `size` (possibly absent). */
  datatype OwnedFile = OwnedFile(id: string, filename: string, size: Option<nat>)

  /** The extensions of the category filters' regular expressions. */
  const ImageFilterExtensions: seq<string> := ["jpg", "jpeg", "png", "gif", "webp"]

  /** The values of the category drop-down; any other string behaves like "all". */
  datatype FilterValue = AllFiles | ImagesOnly | DocumentsOnly | VideosOnly | AudioOnly | Unrecognised

  function ParseFilter(filter: string): FilterValue
  {
    if filter == "all" then AllFiles
    else if filter == "images" then ImagesOnly
    else if filter == "documents" then DocumentsOnly
    else if filter == "videos" then VideosOnly
    else if filter == "audio" then AudioOnly
    else Unrecognised
  }

  /** The extension list of a category filter's regular expression. */
  function FilterExtensions(filter: FilterValue): Option<seq<string>>
  {
    match filter
    case ImagesOnly => Some(ImageFilterExtensions)
    case DocumentsOnly => Some(DocumentExtensions)
    case VideosOnly => Some(VideoExtensions)
    case AudioOnly => Some(AudioExtensions)
    case _ => None
  }

  /** `filename.toLowerCase().includes(searchQuery.toLowerCase())`. */
  predicate MatchesSearch(filename: string, query: string)
  {
    Contains(ToLower(filename), ToLower(query))
  }

  /** `/\.(e1|e2|...)$/i`: the name ends in '.' and one of the extensions, ignoring case. */
  predicate EndsWithExtension(filename: string, exts: seq<string>)
  {
    exists e :: e in exts && EndsWith(ToLower(filename), ['.'] + e)
  }

  /** The predicate `own.filter` applies. */
  predicate Keep(file: OwnedFile, query: string, filter: FilterValue)
  {
    match FilterExtensions(filter)
    case None => MatchesSearch(file.filename, query)
    case Some(exts) => MatchesSearch(file.filename, query) && EndsWithExtension(file.filename, exts)
  }

  /** `filteredOwnFiles`. */
  function FilteredOwnFiles(own: seq<OwnedFile>, query: string, filter: string): seq<OwnedFile>
  {
    Filter(own, f => Keep(f, query, ParseFilter(filter)))
  }

  /**
   * The filtered list is drawn from `own` in its order; a file survives
   * exactly when its entry is kept, with every copy of it; nothing is added.
   */
  lemma FilteredIsOrderedSelection(own: seq<OwnedFile>, query: string, filter: string, f: OwnedFile)
    ensures IsSubsequence(FilteredOwnFiles(own, query, filter), own)
    ensures f in FilteredOwnFiles(own, query, filter) <==> f in own && Keep(f, query, ParseFilter(filter))
    ensures multiset(FilteredOwnFiles(own, query, filter))[f] == if Keep(f, query, ParseFilter(filter)) then multiset(own)[f] else 0
  {
    FilterIsSubsequence(own, f => Keep(f, query, ParseFilter(filter)));
    FilterCount(own, f => Keep(f, query, ParseFilter(filter)), f);
  }

  /** Under "all" or an unrecognised filter a file is kept exactly when it matches the search. */
  lemma NoCategoryKeepsSearchMatches(file: OwnedFile, query: string, filter: string)
    requires ParseFilter(filter) in {AllFiles, Unrecognised}
    ensures Keep(file, query, ParseFilter(filter)) <==> MatchesSearch(file.filename, query)
  {
  }

  /** An empty query under "all" or an unrecognised filter keeps the whole list. */
  lemma EmptyQueryKeepsAll(own: seq<OwnedFile>, filter: string)
    requires ParseFilter(filter) in {AllFiles, Unrecognised}
    ensures FilteredOwnFiles(own, "", filter) == own
  {
    forall i | 0 <= i < |own| ensures Keep(own[i], "", ParseFilter(filter)) {
      ContainsEmpty(ToLower(own[i].filename));
    }
  }

  /**
   * The regular expression of a category filter agrees with the extension:
   * a name ends in '.' and `e` (ignoring case) exactly when it has a '.' and
   * its extension is `e`.
   */
  lemma EndsWithDotExtension(filename: string, e: string)
    requires '.' !in e
    ensures EndsWith(ToLower(filename), ['.'] + e) <==> '.' in filename && Extension(filename) == e
  {
    if EndsWith(ToLower(filename), ['.'] + e) {
      DotSuffixGivesExtension(filename, e);
    }
    if '.' in filename && Extension(filename) == e {
      ExtensionGivesDotSuffix(filename);
    }
  }

  lemma DotSuffixGivesExtension(filename: string, e: string)
    requires '.' !in e
    requires EndsWith(ToLower(filename), ['.'] + e)
    ensures '.' in filename && Extension(filename) == e
  {
    var p := |filename| - |e| - 1;
    LowerEndsWithDot(filename, e);
    LastPartAfter(filename, '.', p);
  }

  lemma ExtensionGivesDotSuffix(filename: string)
    requires '.' in filename
    ensures EndsWith(ToLower(filename), ['.'] + Extension(filename))
  {
    var ext := Extension(filename);
    DotBeforeLowerSuffix(filename, |filename| - |ext|);
  }

  /** A category filter's pattern holds exactly when the name has a '.' and its extension is on the list. */
  lemma EndsWithExtensionIff(filename: string, exts: seq<string>)
    requires forall i :: 0 <= i < |exts| ==> '.' !in exts[i]
    ensures EndsWithExtension(filename, exts) <==> '.' in filename && Extension(filename) in exts
  {
    if EndsWithExtension(filename, exts) {
      var e :| e in exts && EndsWith(ToLower(filename), ['.'] + e);
      EndsWithDotExtension(filename, e);
    }
    if '.' in filename && Extension(filename) in exts {
      ExtensionGivesDotSuffix(filename);
    }
  }

  lemma FilterListsHaveNoDot()
    ensures forall i :: 0 <= i < |ImageFilterExtensions| ==> '.' !in ImageFilterExtensions[i]
    ensures forall i :: 0 <= i < |DocumentExtensions| ==> '.' !in DocumentExtensions[i]
    ensures forall i :: 0 <= i < |VideoExtensions| ==> '.' !in VideoExtensions[i]
    ensures forall i :: 0 <= i < |AudioExtensions| ==> '.' !in AudioExtensions[i]
  {
  }

  /** A category other than images keeps a file exactly when it matches the search and the icon classifier puts it in that category. */
  lemma CategoryFilterAgreesWithIcon(file: OwnedFile, query: string, filter: FilterValue)
    requires filter in {DocumentsOnly, VideosOnly, AudioOnly}
    ensures Keep(file, query, filter) <==>
      && MatchesSearch(file.filename, query)
      && '.' in file.filename
      && ClassifyName(file.filename) == (match filter case DocumentsOnly => Document case VideosOnly => Video case _ => Audio)
  {
    FilterListsHaveNoDot();
    EndsWithExtensionIff(file.filename, FilterExtensions(filter).value);
    ClassifyNameByList(file.filename);
  }

  /**
   * The images filter keeps a file exactly when it matches the search and the
   * icon classifier calls it an image, except that "svg" is left out.
   */
  lemma ImageFilterOmitsSvg(file: OwnedFile, query: string)
    ensures Keep(file, query, ImagesOnly) <==>
      && MatchesSearch(file.filename, query)
      && '.' in file.filename
      && ClassifyName(file.filename) == Image
      && Extension(file.filename) != "svg"
  {
    var ext := Extension(file.filename);
    FilterListsHaveNoDot();
    EndsWithExtensionIff(file.filename, ImageFilterExtensions);
    assert Keep(file, query, ImagesOnly) == (MatchesSearch(file.filename, query) && EndsWithExtension(file.filename, ImageFilterExtensions));
    SharedImagesLackSvg(ext);
    assert ImageFilterExtensions == SharedImageExtensions;
    assert ClassifyName(file.filename) == Image <==> ext in DashboardImageExtensions;
  }

  // ---------------------------------------------------------------- storage

  function SizeOrZero(file: OwnedFile): nat
  {
    match file.size
    case Some(n) => n
    case None => 0
  }

  /** `own.reduce((sum, file) => sum + (file.size || 0), 0)`. */
  function StorageUsed(own: seq<OwnedFile>): nat
  {
    if own == [] then 0 else StorageUsed(own[..|own| - 1]) + SizeOrZero(own[|own| - 1])
  }

  /** The total of two lists is the sum of their totals. */
  lemma {:induction false} StorageUsedAppend(a: seq<OwnedFile>, b: seq<OwnedFile>)
    ensures StorageUsed(a + b) == StorageUsed(a) + StorageUsed(b)
    decreases |b|
  {
    if b == [] {
      assert a + b == a;
    } else {
      StorageUsedAppend(a, b[..|b| - 1]);
      assert (a + b)[..|a + b| - 1] == a + b[..|b| - 1];
    }
  }

  /** Every known size is part of the total, and files without a size add nothing. */
  lemma {:induction false} StorageUsedBounds(own: seq<OwnedFile>, i: nat)
    requires i < |own|
    ensures SizeOrZero(own[i]) <= StorageUsed(own)
    ensures own[i].size.None? ==> StorageUsed(own) == StorageUsed(own[..i]) + StorageUsed(own[i + 1..])
  {
    assert own == own[..i] + [own[i]] + own[i + 1..];
    StorageUsedAppend(own[..i] + [own[i]], own[i + 1..]);
    StorageUsedAppend(own[..i], [own[i]]);
    assert StorageUsed([own[i]]) == SizeOrZero(own[i]) by {
      assert [own[i]][..0] == [];
    }
  }

  // ---------------------------------------------------------------- selection

  /** The ids of a list of files, in order: `files.map(f => f._id)`. */
  function Ids(files: seq<OwnedFile>): (ids: seq<string>)
    ensures |ids| == |files|
    ensures forall i :: 0 <= i < |files| ==> ids[i] == files[i].id
  {
    Map(files, (f: OwnedFile) => f.id)
  }

  /** `prev.includes(id) ? prev.filter(x => x !== id) : [...prev, id]`. */
  function Toggled(selected: seq<string>, id: string): seq<string>
  {
    if id in selected then Without(selected, id) else selected + [id]
  }

  /** An absent id is appended at the end. */
  lemma ToggleAbsentAppends(selected: seq<string>, id: string)
    requires id !in selected
    ensures Toggled(selected, id)[..|selected|] == selected
    ensures Toggled(selected, id)[|selected|] == id && |Toggled(selected, id)| == |selected| + 1
  {
  }

  /** A present id loses every occurrence; every other id stays, in order and as often as before. */
  lemma TogglePresentRemoves(selected: seq<string>, id: string, other: string)
    requires id in selected
    ensures id !in Toggled(selected, id)
    ensures IsSubsequence(Toggled(selected, id), selected)
    ensures other != id ==> multiset(Toggled(selected, id))[other] == multiset(selected)[other]
    ensures |Toggled(selected, id)| < |selected|
  {
    WithoutProperties(selected, id, other);
  }

  /** Toggling an absent id twice gives back the original selection. */
  lemma ToggleTwiceAbsent(selected: seq<string>, id: string)
    requires id !in selected
    ensures Toggled(Toggled(selected, id), id) == selected
  {
    WithoutAppend(selected, [id], id);
    WithoutAbsent(selected, id);
  }

  /** Toggling never introduces a duplicate id. */
  lemma ToggleKeepsNoDuplicates(selected: seq<string>, id: string)
    requires NoDuplicates(selected)
    ensures NoDuplicates(Toggled(selected, id))
  {
    if id in selected {
      var r := Without(selected, id);
      forall x ensures multiset(r)[x] <= 1 {
        WithoutProperties(selected, id, x);
        NoDuplicatesCount(selected, x);
      }
      CountsAtMostOne(r);
    }
  }

  /** The header checkbox: as many ids selected as files shown, and some file shown. */
  predicate AllSelected(selected: seq<string>, filtered: seq<OwnedFile>)
  {
    |selected| == |filtered| && |filtered| > 0
  }

  /** Checking the header box selects the shown files, so it then reads as checked unless nothing is shown. */
  lemma SelectAllThenChecked(filtered: seq<OwnedFile>)
    ensures AllSelected(Ids(filtered), filtered) <==> filtered != []
    ensures !AllSelected([], filtered)
  {
  }

  /**
   * The header box compares lengths only: two selected ids of files that the
   * current search hides make it read as checked for two other shown files.
   */
  lemma CheckedWithoutSelectingShown(a: OwnedFile, b: OwnedFile)
    requires a.id != b.id
    ensures AllSelected(["hidden-1", "hidden-2"], [a, b])
  {
  }

  /** The position of the first file with that id. */
  function FindIndex(own: seq<OwnedFile>, id: string): (r: Option<nat>)
    ensures r.Some? ==> r.value < |own| && own[r.value].id == id
    ensures r.Some? ==> forall j :: 0 <= j < r.value ==> own[j].id != id
    ensures r.None? <==> forall i :: 0 <= i < |own| ==> own[i].id != id
  {
    if own == [] then None
    else if own[0].id == id then Some(0)
    else
      match FindIndex(own[1..], id)
      case None => None
      case Some(k) => Some(k + 1)
  }

  /** `own.find(f => f._id === id)`: the first file with that id. */
  function FindById(own: seq<OwnedFile>, id: string): (r: Option<OwnedFile>)
    ensures r.Some? ==> r.value in own && r.value.id == id
    ensures r.Some? ==> exists k :: 0 <= k < |own| && own[k] == r.value && forall j :: 0 <= j < k ==> own[j].id != id
    ensures r.None? <==> forall i :: 0 <= i < |own| ==> own[i].id != id
  {
    match FindIndex(own, id)
    case None => None
    case Some(k) => Some(own[k])
  }

  /** The owned file an id names, if any, as a list of zero or one files. */
  function FoundFiles(own: seq<OwnedFile>, id: string): seq<OwnedFile>
  {
    match FindById(own, id)
    case Some(f) => [f]
    case None => []
  }

  /**
   * The files the bulk download and bulk delete act on: for each selected id
   * in turn, the first owned file with that id, when there is one.
   */
  function BulkSpec(selected: seq<string>, own: seq<OwnedFile>): seq<OwnedFile>
  {
    if selected == [] then []
    else BulkSpec(selected[..|selected| - 1], own) + FoundFiles(own, selected[|selected| - 1])
  }

  /** What the bulk actions act on: owned files of selected ids, all of those found, at most one per id. */
  lemma BulkSpecProperties(selected: seq<string>, own: seq<OwnedFile>)
    ensures |BulkSpec(selected, own)| <= |selected|
    ensures forall t :: t in BulkSpec(selected, own) ==> t in own && t.id in selected
    ensures forall i :: 0 <= i < |selected| && FindById(own, selected[i]).Some? ==> FindById(own, selected[i]).value in BulkSpec(selected, own)
    ensures (forall i :: 0 <= i < |selected| ==> FindById(own, selected[i]).Some?) ==> |BulkSpec(selected, own)| == |selected|
  {
    BulkSpecLength(selected, own);
    BulkSpecMembers(selected, own);
    BulkSpecComplete(selected, own);
  }

  lemma {:induction false} BulkSpecLength(selected: seq<string>, own: seq<OwnedFile>)
    ensures |BulkSpec(selected, own)| <= |selected|
    ensures (forall i :: 0 <= i < |selected| ==> FindById(own, selected[i]).Some?) ==> |BulkSpec(selected, own)| == |selected|
  {
    if selected != [] {
      var init := selected[..|selected| - 1];
      BulkSpecLength(init, own);
      assert forall i :: 0 <= i < |init| ==> init[i] == selected[i];
    }
  }

  lemma {:induction false} BulkSpecMembers(selected: seq<string>, own: seq<OwnedFile>)
    ensures forall t :: t in BulkSpec(selected, own) ==> t in own && t.id in selected
  {
    if selected != [] {
      var init := selected[..|selected| - 1];
      BulkSpecMembers(init, own);
      forall t | t in BulkSpec(init, own) ensures t.id in selected {
        assert t.id in init;
      }
    }
  }

  lemma {:induction false} BulkSpecComplete(selected: seq<string>, own: seq<OwnedFile>)
    ensures forall i :: 0 <= i < |selected| && FindById(own, selected[i]).Some? ==> FindById(own, selected[i]).value in BulkSpec(selected, own)
  {
    if selected != [] {
      var init := selected[..|selected| - 1];
      BulkSpecComplete(init, own);
      assert forall i :: 0 <= i < |init| ==> init[i] == selected[i];
    }
  }

  /**
   * `for (const fileId of selectedFiles) { const file = own.find(...); if (file) ... }`,
   * collecting the files the loop body acts on.
   */
  method BulkTargets(selected: seq<string>, own: seq<OwnedFile>) returns (targets: seq<OwnedFile>)
    ensures targets == BulkSpec(selected, own)
    ensures |targets| <= |selected|
    ensures forall t :: t in targets ==> t in own && t.id in selected
  {
    targets := [];
    for i := 0 to |selected|
      invariant targets == BulkSpec(selected[..i], own)
    {
      var file := FindById(own, selected[i]);
      assert selected[..i + 1][..i] == selected[..i];
      if file.Some? {
        targets := targets + [file.value];
      }
    }
    assert selected[..|selected|] == selected;
    BulkSpecProperties(selected, own);
  }

  /** Some delete among `targets` is rejected by the server: the one at position `rejected.value`. */
  predicate DeleteFails(targets: seq<OwnedFile>, rejected: Option<nat>)
  {
    rejected.Some? && rejected.value < |targets|
  }

  /** The selection state of the Dashboard: `selectedFiles`. */
  class Selection {
    var ids: seq<string>

    constructor ()
      ensures ids == []
    {
      ids := [];
    }

    /** `handleFileSelect`. */
    method Toggle(id: string)
      modifies this
      ensures ids == Toggled(old(ids), id)
    {
      if id in ids {
        ids := Without(ids, id);
      } else {
        ids := ids + [id];
      }
    }

    /** The header checkbox's `onChange`. */
    method SetAll(checked: bool, filtered: seq<OwnedFile>)
      modifies this
      ensures ids == if checked then Ids(filtered) else []
    {
      if checked {
        ids := Ids(filtered);
      } else {
        ids := [];
      }
    }

    /** `handleBulkDownload`: acts on the selected owned files, then clears the selection. */
    method BulkDownload(own: seq<OwnedFile>) returns (downloads: seq<OwnedFile>)
      modifies this
      ensures downloads == BulkSpec(old(ids), own)
      ensures ids == []
    {
      downloads := BulkTargets(ids, own);
      ids := [];
    }

    /**
     * `handleBulkDelete`: nothing happens unless the user confirms. The
     * deletes are awaited one by one and not caught, so the first one the
     * server rejects (`rejected`, its position among the deletes, if any)
     * ends the handler: no later delete is sent, the list is not reloaded,
     * and the selection stays. `reloaded` says whether `load()` runs.
     */
    method BulkDelete(own: seq<OwnedFile>, confirmed: bool, rejected: Option<nat>)
      returns (deletions: seq<OwnedFile>, reloaded: bool)
      modifies this
      ensures !confirmed ==> deletions == [] && !reloaded && ids == old(ids)
      ensures confirmed && DeleteFails(BulkSpec(old(ids), own), rejected) ==>
        && deletions == BulkSpec(old(ids), own)[..rejected.value + 1]
        && !reloaded && ids == old(ids)
      ensures confirmed && !DeleteFails(BulkSpec(old(ids), own), rejected) ==>
        deletions == BulkSpec(old(ids), own) && reloaded && ids == []
    {
      if !confirmed {
        return [], false;
      }
      var targets := BulkTargets(ids, own);
      if DeleteFails(targets, rejected) {
        deletions, reloaded := targets[..rejected.value + 1], false;
      } else {
        deletions, reloaded := targets, true;
        ids := [];
      }
    }
  }
}
