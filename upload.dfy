/**
 * The upload panel: a list of chosen files, grown by the file picker (which
 * skips names already listed) and by drag and drop (which does not), shrunk
 * by removing one file or clearing all, and sent in one request.
 */
module Upload {
  import opened Common
  import opened Text
  import opened Seqs
  import opened FileTypes
  import opened Sizes

  /** A browser `File`: its name, size in bytes and MIME type ("" when unknown). */
  datatype LocalFile = LocalFile(name: string, size: nat, fileType: string)

  /** `files.map(f => f.name)`. */
  function Names(files: seq<LocalFile>): (names: seq<string>)
    ensures |names| == |files|
    ensures forall i :: 0 <= i < |files| ==> names[i] == files[i].name
  {
    if files == [] then [] else [files[0].name] + Names(files[1..])
  }

  /** No two listed files share a name. */
  predicate UniqueNames(files: seq<LocalFile>)
  {
    forall i, j :: 0 <= i < j < |files| ==> files[i].name != files[j].name
  }

  /**
   * `selectedFiles.filter(file => !existingFilenames.includes(file.name))`:
   * the chosen files whose names are not in `names`, in their order.
   */
  function NotYetListed(names: seq<string>, selected: seq<LocalFile>): (r: seq<LocalFile>)
    ensures |r| <= |selected|
    ensures forall i :: 0 <= i < |r| ==> r[i] in selected && r[i].name !in names
    ensures forall i :: 0 <= i < |selected| && selected[i].name !in names ==> selected[i] in r
    ensures |r| == |selected| <==> forall i :: 0 <= i < |selected| ==> selected[i].name !in names
    ensures UniqueNames(selected) ==> UniqueNames(r)
  {
    if selected == [] then []
    else
      var rest := NotYetListed(names, selected[1..]);
      assert forall i :: 1 <= i < |selected| ==> selected[i] == selected[1..][i - 1];
      assert forall f :: f in selected[1..] ==> f in selected;
      if selected[0].name in names then
        rest
      else
        assert UniqueNames(selected) ==> forall f :: f in selected[1..] ==> f.name != selected[0].name;
        [selected[0]] + rest
  }

  /** The picker's filter is `Seqs.Filter` with the test "name not listed". */
  lemma {:induction false} NotYetListedIsFilter(names: seq<string>, selected: seq<LocalFile>, keep: LocalFile -> bool)
    requires forall f :: keep(f) == (f.name !in names)
    ensures NotYetListed(names, selected) == Filter(selected, keep)
    decreases |selected|
  {
    if selected != [] {
      NotYetListedIsFilter(names, selected[1..], keep);
    }
  }

  /**
   * The picker keeps every copy of a chosen file whose name is not listed
   * yet, and no copy of one whose name is.
   */
  lemma NotYetListedCount(names: seq<string>, selected: seq<LocalFile>, x: LocalFile)
    ensures multiset(NotYetListed(names, selected))[x] == if x.name in names then 0 else multiset(selected)[x]
  {
    var keep := (f: LocalFile) => f.name !in names;
    NotYetListedIsFilter(names, selected, keep);
    FilterCount(selected, keep, x);
  }

  /** The picker keeps the chosen files it takes in their order. */
  lemma {:induction false} NotYetListedIsSubsequence(names: seq<string>, selected: seq<LocalFile>)
    ensures IsSubsequence(NotYetListed(names, selected), selected)
    decreases |selected|
  {
    if selected != [] {
      NotYetListedIsSubsequence(names, selected[1..]);
      var rest := NotYetListed(names, selected[1..]);
      if selected[0].name !in names {
        assert ([selected[0]] + rest)[1..] == rest;
      } else if rest != [] {
        assert IsSubsequence(rest, selected[1..]);
      }
    }
  }

  /**
   * The picker warns exactly when it drops a file: when some chosen file's
   * name is already listed.
   */
  lemma RejectedIff(existing: seq<LocalFile>, selected: seq<LocalFile>)
    ensures |NotYetListed(Names(existing), selected)| != |selected| <==>
      exists i, j :: 0 <= i < |selected| && 0 <= j < |existing| && selected[i].name == existing[j].name
  {
    var names := Names(existing);
    if |NotYetListed(names, selected)| != |selected| {
      var i :| 0 <= i < |selected| && selected[i].name in names;
      var j :| 0 <= j < |names| && names[j] == selected[i].name;
      assert selected[i].name == existing[j].name;
    } else {
      forall i, j | 0 <= i < |selected| && 0 <= j < |existing| ensures selected[i].name != existing[j].name {
        assert names[j] == existing[j].name;
      }
    }
  }

  /**
   * What the check does guarantee: if the list and the choice each have
   * unique names, so does the list after the choice is added.
   */
  lemma SelectKeepsUniqueNames(existing: seq<LocalFile>, selected: seq<LocalFile>)
    requires UniqueNames(existing) && UniqueNames(selected)
    ensures UniqueNames(existing + NotYetListed(Names(existing), selected))
  {
    var names := Names(existing);
    var r := NotYetListed(names, selected);
    var all := existing + r;
    forall i, j | 0 <= i < j < |all| ensures all[i].name != all[j].name {
      if j >= |existing| {
        assert all[j] == r[j - |existing|];
        if i < |existing| {
          assert names[i] == existing[i].name;
        } else {
          assert all[i] == r[i - |existing|];
        }
      }
    }
  }

  /** Two positions of `r` sharing a name make any list ending in `r` repeat it. */
  lemma RepeatedNameInTail(existing: seq<LocalFile>, r: seq<LocalFile>, a: nat, b: nat)
    requires a < b < |r| && r[a].name == r[b].name
    ensures !UniqueNames(existing + r)
  {
    assert (existing + r)[|existing| + a] == r[a] && (existing + r)[|existing| + b] == r[b];
  }

  /** A file chosen twice under a name not yet listed is taken twice. */
  lemma ChosenTwiceTakenTwice(names: seq<string>, selected: seq<LocalFile>, i: nat, j: nat)
    requires i < j < |selected| && selected[i] == selected[j] && selected[i].name !in names
    ensures var r := NotYetListed(names, selected);
      exists a, b :: 0 <= a < b < |r| && r[a] == selected[i] && r[b] == selected[i]
  {
    TwoOccurrences(selected, i, j);
    NotYetListedCount(names, selected, selected[i]);
    TwoPositions(NotYetListed(names, selected), selected[i]);
  }

  /** Two chosen files sharing a name not yet listed are both taken, at two positions. */
  lemma ChosenPairTaken(names: seq<string>, selected: seq<LocalFile>, i: nat, j: nat)
    requires i < j < |selected| && selected[i].name == selected[j].name && selected[i].name !in names
    ensures var r := NotYetListed(names, selected);
      exists a, b :: 0 <= a < b < |r| && r[a].name == r[b].name
  {
    var r := NotYetListed(names, selected);
    if selected[i] == selected[j] {
      ChosenTwiceTakenTwice(names, selected, i, j);
    } else {
      assert selected[i] in r && selected[j] in r;
      var p :| 0 <= p < |r| && r[p] == selected[i];
      var q :| 0 <= q < |r| && r[q] == selected[j];
      assert p < q || q < p;
    }
  }

  /**
   * What it does not: names are checked against the list as it was, not
   * against each other, so two chosen files sharing a name not yet listed
   * are both added and the name is listed twice.
   */
  lemma DuplicateWithinOneSelection(existing: seq<LocalFile>, selected: seq<LocalFile>, i: nat, j: nat)
    requires i < j < |selected| && selected[i].name == selected[j].name
    requires selected[i].name !in Names(existing)
    ensures !UniqueNames(existing + NotYetListed(Names(existing), selected))
  {
    var names := Names(existing);
    var r := NotYetListed(names, selected);
    ChosenPairTaken(names, selected, i, j);
    var a: nat, b: nat :| a < b < |r| && r[a].name == r[b].name;
    RepeatedNameInTail(existing, r, a, b);
  }

  /**
   * Dropping files skips the check: dropping a file whose name is already
   * listed lists that name twice.
   */
  lemma DropCanDuplicate(existing: seq<LocalFile>, dropped: seq<LocalFile>, i: nat, j: nat)
    requires i < |existing| && j < |dropped| && existing[i].name == dropped[j].name
    ensures !UniqueNames(existing + dropped)
  {
    var all := existing + dropped;
    assert all[i] == existing[i] && all[|existing| + j] == dropped[j];
  }

  /** `files.reduce((sum, file) => sum + file.size, 0)`. */
  function TotalSize(files: seq<LocalFile>): nat
  {
    if files == [] then 0 else TotalSize(files[..|files| - 1]) + files[|files| - 1].size
  }

  lemma {:induction false} TotalSizeAppend(a: seq<LocalFile>, b: seq<LocalFile>)
    ensures TotalSize(a + b) == TotalSize(a) + TotalSize(b)
    decreases |b|
  {
    if b == [] {
      assert a + b == a;
    } else {
      TotalSizeAppend(a, b[..|b| - 1]);
      assert (a + b)[..|a + b| - 1] == a + b[..|b| - 1];
    }
  }

  /** Removing a file takes exactly its size off the total. */
  lemma TotalSizeRemoveAt(files: seq<LocalFile>, k: int)
    requires 0 <= k < |files|
    ensures TotalSize(RemoveAt(files, k)) + files[k].size == TotalSize(files)
  {
    RemoveAtSlices(files, k);
    TotalSizeAround(files, k);
  }

  lemma TotalSizeSnoc(files: seq<LocalFile>, x: LocalFile)
    ensures TotalSize(files + [x]) == TotalSize(files) + x.size
  {
    assert (files + [x])[..|files|] == files;
  }

  lemma TotalSizeAround(files: seq<LocalFile>, k: int)
    requires 0 <= k < |files|
    ensures TotalSize(files[..k] + files[k + 1..]) + files[k].size == TotalSize(files)
  {
    var before, x, after := files[..k], files[k], files[k + 1..];
    SplitAround(files, k);
    TotalSizeSnoc(before, x);
    TotalSizeAppend(before + [x], after);
    TotalSizeAppend(before, after);
  }

  /** The panel's `formatFileSize` as written: zero is "0 Bytes", the rest scaled as written. */
  function FormatFileSizeAsWritten(bytes: nat): SizeText
  {
    if bytes == 0 then ZeroBytes else Sized(ScaleAsWritten(bytes))
  }

  lemma FormatFileSizeAsWrittenTebibyte()
    ensures FormatFileSizeAsWritten(1099511627776).scaled.unit == "undefined"
  {
    ScaleAsWrittenTebibyte();
  }

  /** The panel's `formatFileSize` with the unit capped at "GB": "0 Bytes" exactly for 0, never "Unknown size". */
  function FormatFileSize(bytes: nat): (t: SizeText)
    ensures t == ZeroBytes <==> bytes == 0
    ensures t != UnknownSize
    ensures t.Sized? ==> t.scaled == Scale(bytes) && t.scaled.unit in Units
    ensures bytes < Pow(1024, 4) ==> t == FormatFileSizeAsWritten(bytes)
  {
    if bytes == 0 then ZeroBytes
    else
      ScaleAgreesBelowTebibyte(bytes);
      Sized(Scale(bytes))
  }

  /** The panel's `getFileIcon`: by the MIME type alone. */
  function Icon(f: LocalFile): Category
  {
    ClassifyType(f.fileType)
  }

  /** `Upload {n} file{n !== 1 ? 's' : ''}`. */
  function ButtonLabel(n: nat): string
  {
    "Upload " + Decimal(n) + " file" + (if n != 1 then "s" else "")
  }

  /** The label reads back its count, and ends in "s" exactly when the count is not 1. */
  lemma ButtonLabelReadsBack(n: nat)
    ensures var l := ButtonLabel(n);
      && |l| > 7 + |Decimal(n)| && l[7..7 + |Decimal(n)|] == Decimal(n)
      && (l[|l| - 1] == 's' <==> n != 1)
  {
    var d := Decimal(n);
    var l := ButtonLabel(n);
    assert l[7..7 + |d|] == d;
  }

  // ---------------------------------------------------------------- the panel's state

  datatype UploadNotice =
    | NoNotice
    | AlreadySelected
    | NoFiles
    | Uploaded(count: nat)
    | UploadFailed(reason: string)

  function NoticeText(n: UploadNotice): string
  {
    match n
    case NoNotice => ""
    case AlreadySelected => "Some files were already selected"
    case NoFiles => "Please select files to upload"
    case Uploaded(c) => Decimal(c) + " file(s) uploaded successfully!"
    case UploadFailed(r) => "Upload failed: " + r
  }

  /** The count in the success message is read back from its text. */
  lemma UploadedTextReadsBack(c: nat)
    ensures var t := NoticeText(Uploaded(c));
      && |t| > |Decimal(c)| && AllDigits(t[..|Decimal(c)|]) && ParseDecimal(t[..|Decimal(c)|]) == c
  {
    var t := NoticeText(Uploaded(c));
    assert t[..|Decimal(c)|] == Decimal(c);
    ParseDecimalOfDecimal(c);
  }

  /** The one request: every listed file, in order, under the form field "files". */
  datatype UploadRequest = UploadRequest(files: seq<LocalFile>)

  class Panel {
    var files: seq<LocalFile>
    var message: UploadNotice
    var uploading: bool

    constructor ()
      ensures files == [] && message == NoNotice && !uploading
    {
      files, message, uploading := [], NoNotice, false;
    }

    /**
     * `handleFileSelect`: appends the chosen files whose names are not yet
     * listed, and warns when it skipped any.
     */
    method HandleFileSelect(selected: seq<LocalFile>)
      modifies this
      ensures files == old(files) + NotYetListed(Names(old(files)), selected)
      ensures message == if |NotYetListed(Names(old(files)), selected)| != |selected| then AlreadySelected else old(message)
      ensures uploading == old(uploading)
    {
      var newFiles := NotYetListed(Names(files), selected);
      if |newFiles| != |selected| {
        message := AlreadySelected;
      }
      files := files + newFiles;
    }

    /** `handleDrop`: appends every dropped file, unchecked. */
    method HandleDrop(dropped: seq<LocalFile>)
      modifies this
      ensures files == old(files) + dropped
      ensures message == old(message) && uploading == old(uploading)
    {
      files := files + dropped;
    }

    /** `removeFile`: drops the file at `index`; any other index changes nothing. */
    method RemoveFile(index: int)
      modifies this
      ensures files == RemoveAt(old(files), index)
      ensures 0 <= index < |old(files)| ==> files == old(files)[..index] + old(files)[index + 1..]
      ensures !(0 <= index < |old(files)|) ==> files == old(files)
      ensures message == old(message) && uploading == old(uploading)
    {
      RemoveAtSlices(files, index);
      files := RemoveAt(files, index);
    }

    /** `clearAll`. */
    method ClearAll()
      modifies this
      ensures files == [] && message == old(message) && uploading == old(uploading)
    {
      files := [];
    }

    /**
     * `submit`: an empty list only sets the warning. Otherwise every file is
     * sent in one request; on success the list is emptied, the count
     * reported and `onDone` scheduled when there is one; on failure the
     * list stays.
     */
    method Submit(response: ApiResult<()>, hasOnDone: bool)
      returns (requests: seq<UploadRequest>, notifyDone: bool)
      modifies this
      ensures old(files) == [] ==>
        requests == [] && !notifyDone && message == NoFiles && files == [] && uploading == old(uploading)
      ensures old(files) != [] ==> requests == [UploadRequest(old(files))] && !uploading
      ensures old(files) != [] && response.Ok? ==>
        message == Uploaded(|old(files)|) && files == [] && notifyDone == hasOnDone
      ensures old(files) != [] && response.Fail? ==>
        && message == UploadFailed(OrElse(response.error.dataError, response.error.message))
        && files == old(files) && !notifyDone
    {
      if |files| == 0 {
        message := NoFiles;
        return [], false;
      }
      requests := [UploadRequest(files)];
      uploading := true;
      if response.Ok? {
        message := Uploaded(|files|);
        files := [];
        notifyDone := hasOnDone;
      } else {
        message := UploadFailed(OrElse(response.error.dataError, response.error.message));
        notifyDone := false;
      }
      uploading := false;
    }
  }
}
