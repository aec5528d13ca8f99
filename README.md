# File-sharing client: a Dafny model of its components

The repository is the browser client of a small file-sharing service. It is a
set of React components: a dashboard of the user's files, a share dialog,
a page that opens a shared link by its token, a sign-up form and an upload
panel. Every access decision (grants, tokens, expiry, revocation) is made by
the server behind HTTP calls. That server is not part of this model. What
the client itself decides is modelled and proved here:

- how a file is classified for its icon, from its name's extension and its
  MIME type (`FileTypes`);
- the dashboard's search-and-category filter, the selection of files, the
  bulk actions and the storage total (`Dashboard`);
- the share dialog's expiry presets, the remaining-time badge and its colour,
  sharing with a user, creating and revoking links and revoking users
  (`ShareModal`);
- opening a shared link: the `Content-Disposition` file name, the size and
  type lines, and the search/download/paste/clear handlers (`AccessShared`);
- the sign-up password-strength meter and the order of the submit checks
  (`Signup`);
- the upload panel's file list: adding without repeating names, dropping,
  removing by position, clearing, the total, the label and submitting
  (`Upload`).

Four modules support these:

- `Common`: `Option`, the `||` fallback on strings, and an API result type.
- `Text`: the JavaScript string operations used, on sequences of Unicode
  scalar values (Dafny's `char`): ASCII case mapping, `includes`,
  `startsWith`/`endsWith`, one-character `split`, `trim`, and decimal
  rendering of numbers.
- `Seqs`: filtering, removal by value and by position, and subsequences.
- `Sizes`: the unit scaling behind `formatFileSize`.

Components whose state React updates become classes:

- `Dashboard.Selection`;
- `ShareModal.Dialog`;
- `AccessShared.AccessPage`;
- `Signup.Form`;
- `Upload.Panel`.

The rest are functions and lemmas.

How the outside world is modelled:

- Each HTTP call's outcome is a parameter of the method that makes it. The
  method returns the list of requests it issues, in order.
- The browser's `confirm()` answer is a `confirmed` parameter.
- The clipboard text and `window.location.origin` are parameters.
- The current time is a parameter, in milliseconds.
- What the page saves or stores (the downloaded blob, the session written to
  `localStorage`) is returned as a value.

Two behaviours of the code the model describes:

- `revokeUserShare` filters its list by the wrong id. The first row under
  Findings gives the details. The lemmas `ShareModal.RevokeUserShareAsWrittenKeepsEntry`
  and `ShareModal.RevokeUserShareAsWrittenExample` state what the code as written
  does. The dialog model `ShareModal.Dialog.RevokeUserShare` applies the
  corrected filter on the grantee's id instead.
- On a fallback download after a search, `handleSearch` reaches
  `handleDownload` through the closure of the earlier render. So `!fileInfo`
  is evaluated on the info the page showed before the search, not on the
  `null` just stored. `AccessShared.AccessPage.HandleSearch` takes that
  snapshot. When an earlier file was shown, a successful fallback download
  leaves the page without any file info.

Lines cited below are in `src/components/`.

## Model

| member | source | states |
|---|---|---|
| FileTypes.ClassifyName | src/components/Dashboard.jsx:95-114 | the dashboard icon: the first of the five lists holding the extension, else "other"; its meaning is stated by `ClassifyNameByList` |
| FileTypes.ClassifyShared | src/components/AccessSharedFile.jsx:31-53 | the shared page's icon: each category's content-type test or list in order, else "other"; stated by the three `ClassifyShared…` and `ImageTypeWins` lemmas |
| FileTypes.ClassifyType | src/components/Upload.jsx:28-46 | the upload panel's icon from the MIME type alone, tests in order; stated by `NoTypeMatchesNothing` and `ClassifySharedUnknownExtension` |
| FileTypes.Extension | src/components/Dashboard.jsx:96 | the extension has no '.', is the lower-cased text after the last '.', and is the whole lower-cased name exactly when the name has no '.' |
| FileTypes.ExtensionIgnoresCase | src/components/Dashboard.jsx:96 | lower-casing the name first does not change its extension |
| FileTypes.ExtensionListsDisjoint | src/components/Dashboard.jsx:98-113 | the five extension lists of the classifier have no extension in common |
| FileTypes.ClassifyNameByList | src/components/Dashboard.jsx:95-114 | the dashboard icon is a category exactly when the extension is on that category's list, and "other" exactly when it is on none |
| FileTypes.ClassifyNameIgnoresCase | src/components/Dashboard.jsx:95-114 | the dashboard icon does not depend on the case of the name |
| FileTypes.SharedImagesLackSvg | src/components/AccessSharedFile.jsx:35 | the shared page's image list is the dashboard's without "svg" |
| FileTypes.ClassifySharedWithoutType | src/components/AccessSharedFile.jsx:31-53 | with no content type the shared page picks the dashboard's icon, except that an "svg" file gets the generic icon |
| FileTypes.ClassifySharedUnknownExtension | src/components/AccessSharedFile.jsx:31-53 | when the extension is on no list, the shared page decides by content type alone, as the upload panel does |
| FileTypes.ImageTypeWins | src/components/AccessSharedFile.jsx:35 | a content type starting with "image/" gives the image icon whatever the name |
| FileTypes.NoTypeMatchesNothing | src/components/Upload.jsx:28-46 | a missing MIME type passes none of the type tests and gives the generic icon |
| FileTypes.ExtensionWithoutDot | src/components/AccessSharedFile.jsx:33 | a name without '.' is its own extension, lower-cased |
| Text.BlankIffTrimEmpty | src/components/ShareModal.jsx:73 | `!s.trim()` holds exactly when every character of `s` is white space or a line end |
| Text.Split | src/components/AccessSharedFile.jsx:310 | `split` gives at least one part, no part holds the separator, and joining the parts gives back the text |
| Text.SplitJoin | src/components/AccessSharedFile.jsx:310 | `split` undoes joining separator-free parts |
| Text.ContainsIffOccurs | src/components/Dashboard.jsx:125 | `includes` holds exactly when the query occurs at some position |
| Text.ParseDecimalOfDecimal | src/components/ShareModal.jsx:339-341 | the digits a template literal writes for a number read back as that number |
| Text.DecimalInjective | src/components/ShareModal.jsx:339-341 | different numbers are written differently |
| Dashboard.FilteredOwnFiles | src/components/Dashboard.jsx:124-132 | the search-and-category filter as a `filter` over the owned files; stated by `FilteredIsOrderedSelection` and the lemmas after it |
| Dashboard.FilteredIsOrderedSelection | src/components/Dashboard.jsx:124-132 | the filtered list is a subsequence of the owned files, and holds each file exactly as often as the owned list when the filter keeps it, else not at all |
| Dashboard.NoCategoryKeepsSearchMatches | src/components/Dashboard.jsx:124-132 | under "all" or an unrecognised filter a file is kept exactly when its lower-cased name contains the lower-cased query |
| Dashboard.EmptyQueryKeepsAll | src/components/Dashboard.jsx:124-132 | an empty query under "all" or an unrecognised filter keeps the whole list |
| Dashboard.EndsWithExtensionIff | src/components/Dashboard.jsx:127-130 | a category's pattern `/\.(…)$/i` matches exactly when the name has a '.' and its extension is on the list |
| Dashboard.CategoryFilterAgreesWithIcon | src/components/Dashboard.jsx:128-130 | the documents, videos and audio filters keep a file exactly when it matches the search and its icon is that category |
| Dashboard.ImageFilterOmitsSvg | src/components/Dashboard.jsx:127 | the images filter keeps exactly the search matches the icon calls images, except "svg" files |
| Dashboard.StorageUsed | src/components/Dashboard.jsx:60 | the `reduce` over the owned files' sizes, a missing size as 0; stated by `StorageUsedAppend` and `StorageUsedBounds` |
| Dashboard.StorageUsedAppend | src/components/Dashboard.jsx:60 | the storage total of two lists is the sum of their totals |
| Dashboard.StorageUsedBounds | src/components/Dashboard.jsx:60 | every file's size is part of the total, and a file without a size adds nothing |
| Dashboard.Toggled | src/components/Dashboard.jsx:141-147 | the toggled selection; stated by the four `Toggle…` lemmas |
| Dashboard.ToggleAbsentAppends | src/components/Dashboard.jsx:141-147 | toggling an unselected id appends it at the end and keeps the rest |
| Dashboard.TogglePresentRemoves | src/components/Dashboard.jsx:141-147 | toggling a selected id removes every occurrence, and every other id stays, in order and as often |
| Dashboard.ToggleTwiceAbsent | src/components/Dashboard.jsx:141-147 | toggling an unselected id twice restores the selection |
| Dashboard.ToggleKeepsNoDuplicates | src/components/Dashboard.jsx:141-147 | toggling never creates a duplicate id |
| Dashboard.AllSelected | src/components/Dashboard.jsx:511 | the header box's `checked`: as many selected ids as shown files, and some file shown; stated by `SelectAllThenChecked` and `CheckedWithoutSelectingShown` |
| Dashboard.SelectAllThenChecked | src/components/Dashboard.jsx:511-517 | after checking the header box, it reads as checked exactly when some file is shown; after unchecking, it never reads as checked |
| Dashboard.CheckedWithoutSelectingShown | src/components/Dashboard.jsx:511 | the checked state compares lengths only, so two hidden ids make two shown files read as all selected |
| Dashboard.FindIndex | src/components/Dashboard.jsx:151 | the first position holding the id, or none exactly when no file has it |
| Dashboard.FindById | src/components/Dashboard.jsx:151 | `find` gives the first owned file with that id (no earlier file has it), or nothing exactly when no file has it |
| Dashboard.BulkSpecProperties | src/components/Dashboard.jsx:149-165 | the bulk actions act on at most one owned file per selected id, on every selected id an owned file has, and only on those |
| Dashboard.BulkTargets | src/components/Dashboard.jsx:150-153 | the `for…of` loop visits exactly the files of the bulk specification, in selection order |
| Dashboard.Selection.constructor | src/components/Dashboard.jsx:44 | the selection starts empty |
| Dashboard.Selection.Toggle | src/components/Dashboard.jsx:141-147 | the new selection is the toggled old one |
| Dashboard.Selection.SetAll | src/components/Dashboard.jsx:511-517 | checking selects the shown files' ids in order; unchecking empties the selection |
| Dashboard.Selection.BulkDownload | src/components/Dashboard.jsx:149-155 | downloads the selected owned files, then clears the selection |
| Dashboard.Selection.BulkDelete | src/components/Dashboard.jsx:157-165 | without confirmation nothing changes; with it, the selected owned files are deleted in order; a rejected delete is the last one sent, and then the list is not reloaded and the selection stays; otherwise the list is reloaded and the selection cleared |
| ShareModal.ExpiryPresets | src/components/ShareModal.jsx:62-69 | six presets, increasing whole hours up to 30 days, then "Never expires" as 0 |
| ShareModal.ExpiryNumber | src/components/ShareModal.jsx:96 | `Number` of the expiry field for blank and digit-only text (also at line 119); stated by `PresetRoundTrip`, and weaker as listed under Left out |
| ShareModal.PresetRoundTrip | src/components/ShareModal.jsx:267-272 | a preset's stored `toString()` is read by `Number` as exactly its seconds |
| ShareModal.MinutesLeft | src/components/ShareModal.jsx:335 | `diff(now, 'minute')`: the milliseconds left divided by 60000, truncated toward zero; stated by `TruncDivMonotone` and `TimeRemainingTextReadsBack` |
| ShareModal.TimeRemainingText | src/components/ShareModal.jsx:337-342 | the badge text; stated by `TimeRemainingTextReadsBack` |
| ShareModal.StatusOf | src/components/ShareModal.jsx:344-348 | the badge colour; stated by `StatusAgreesWithText` and `StatusMonotone` |
| ShareModal.TimeRemainingTextReadsBack | src/components/ShareModal.jsx:337-342 | the badge is "Expired" exactly when expired; otherwise digits and m/h/d, where the unit is minutes below an hour and days from a day up, and the digits count whole units of the time left |
| ShareModal.StatusAgreesWithText | src/components/ShareModal.jsx:344-348 | the status is red exactly for "Expired", green exactly for a badge counted in days, yellow exactly for m or h |
| ShareModal.StatusMonotone | src/components/ShareModal.jsx:344-348 | a later expiry never shows a worse status at the same instant |
| ShareModal.TruncDivMonotone | src/components/ShareModal.jsx:335 | the minute difference, truncated toward zero, grows with the expiry |
| ShareModal.NewLink | src/components/ShareModal.jsx:122-127 | the new link carries the server's token and expiry, and its url is the origin, "/shared/", then the token |
| ShareModal.LinkExpiryDisplay | src/components/ShareModal.jsx:522-524 | a link reads "Never expires" exactly when its `expiresAt` is falsy, and otherwise shows that value |
| ShareModal.LinksWithout | src/components/ShareModal.jsx:144 | the link list after a revoke; stated by `RevokeLinkRemovesExactly` |
| ShareModal.RevokeLinkRemovesExactly | src/components/ShareModal.jsx:144 | revoking removes exactly the links with that token; the rest keep their order and multiplicity |
| ShareModal.SharesAfterRevokeAsWritten | src/components/ShareModal.jsx:157 | the share list after a revoke as written, filtered on the record's id; stated by `RevokeUserShareAsWrittenKeepsEntry` |
| ShareModal.RevokeUserShareAsWrittenKeepsEntry | src/components/ShareModal.jsx:157 | as written, revoking through a share's button leaves the list unchanged unless some record's own id equals the grantee's id |
| ShareModal.RevokeUserShareAsWrittenExample | src/components/ShareModal.jsx:157 | for the share "s1" of grantee "u1", the revoked share stays listed |
| ShareModal.RevokeUserShareRemovesGrantee | src/components/ShareModal.jsx:384 | the corrected filter removes the revoked grantee's shares, including the pressed one, and keeps the others in order and multiplicity |
| ShareModal.ReloadReplaces | src/components/ShareModal.jsx:40-50 | an answer with data sets both lists whatever they held before, so reloading twice with one answer is reloading once; an answer without data keeps both |
| ShareModal.ShareRequests | src/components/ShareModal.jsx:72-113 | the lookup is always sent; the share only after a found user, with that user and the parsed expiry; the reload only after a share the server accepted |
| ShareModal.ShareNotice | src/components/ShareModal.jsx:72-113 | the message names the first failing step (blank e-mail, lookup, share) with its error text, and success exactly when all pass |
| ShareModal.NoticeText | src/components/ShareModal.jsx:74-161 | the exact text of each message the dialog shows, with the error text after the prefix |
| ShareModal.Dialog.constructor | src/components/ShareModal.jsx:23-31 | empty e-mail, both expiries 24 hours, no message, empty lists |
| ShareModal.Dialog.LoadExistingShares | src/components/ShareModal.jsx:40-50 | both lists become the reloaded ones; nothing else changes |
| ShareModal.Dialog.ShareWithUser | src/components/ShareModal.jsx:72-113 | a blank e-mail sends nothing; otherwise the requests and message above; the e-mail is cleared and the lists reloaded only on success; loading ends false |
| ShareModal.Dialog.CreateLink | src/components/ShareModal.jsx:115-137 | on success the new link goes in front of the unchanged earlier ones; on failure the list is kept and the error shown |
| ShareModal.Dialog.RevokeLink | src/components/ShareModal.jsx:139-150 | nothing without confirmation; the list loses the token's links only when the server agrees |
| ShareModal.Dialog.RevokeUserShare | src/components/ShareModal.jsx:152-163 | nothing without confirmation; on success the grantee's shares are removed (corrected filter), on failure the error is shown |
| ShareModal.Dialog.PickUserExpiry | src/components/ShareModal.jsx:271 | the field holds the preset's decimal text, which reads back as its seconds |
| ShareModal.Dialog.PickLinkExpiry | src/components/ShareModal.jsx:422 | the same for the link expiry |
| AccessShared.CloseQuote | src/components/AccessSharedFile.jsx:124 | the lazy capture ends at the first quote, with no line end before it, or there is no match at all |
| AccessShared.MatchAt | src/components/AccessSharedFile.jsx:124 | the shortest capture of a match at a position, or none when the pattern cannot match there |
| AccessShared.FirstMatch | src/components/AccessSharedFile.jsx:124 | `match` finds the leftmost start and the shortest capture there, or none when no position matches |
| AccessShared.Captured | src/components/AccessSharedFile.jsx:125 | the captured name has at least one character and no line end |
| AccessShared.DownloadName | src/components/AccessSharedFile.jsx:121-126 | no header, or no match, gives "downloaded-file"; otherwise the first match's capture; never empty |
| AccessShared.DownloadNameRoundTrip | src/components/AccessSharedFile.jsx:121-126 | a header carrying `filename="name"` gives back `name` for every quotable name |
| AccessShared.AttachmentRoundTrip | src/components/AccessSharedFile.jsx:121-126 | `attachment; filename="name"` names the file `name` |
| AccessShared.DownloadNameWithoutMarker | src/components/AccessSharedFile.jsx:121-126 | a header without `filename="` gives the default name |
| AccessShared.FormatFileSizeAsWritten | src/components/AccessSharedFile.jsx:55-62 | the size text as written, with the unlisted index 4; stated by `FormatFileSizeAsWrittenTebibyte` |
| AccessShared.FormatFileSizeAsWrittenTebibyte | src/components/AccessSharedFile.jsx:55-62 | as written, one tebibyte is shown in the unit "undefined" |
| AccessShared.FormatFileSize | src/components/AccessSharedFile.jsx:55-62 | "Unknown size" exactly for a missing or zero size, so "0 Bytes" never appears; otherwise a scaled amount with a listed unit, as written below a tebibyte |
| AccessShared.ShownSizeIsScaled | src/components/AccessSharedFile.jsx:305-307 | the size line, drawn only for a truthy size, always shows a scaled amount |
| AccessShared.Title | src/components/AccessSharedFile.jsx:303 | the title is never empty, and is the file name when there is one |
| AccessShared.Icon | src/components/AccessSharedFile.jsx:297 | the page's icon: the shared classifier on the file name, or "file" when there is none, and the content type; stated by `IconOfUnnamedUntyped` |
| AccessShared.IconOfUnnamedUntyped | src/components/AccessSharedFile.jsx:297 | a file with no name and no type shows the generic icon |
| AccessShared.TypeLabel | src/components/AccessSharedFile.jsx:310 | the type label is never empty |
| AccessShared.TypeLabelWithoutSlash | src/components/AccessSharedFile.jsx:310 | a type without '/' is labelled "File" |
| AccessShared.TypeLabelOfSegments | src/components/AccessSharedFile.jsx:310 | the label is the second '/'-segment upper-cased, or "File" when that segment is empty |
| AccessShared.TypeLabelExample | src/components/AccessSharedFile.jsx:310 | "application/pdf" is labelled "PDF" |
| AccessShared.SavedFileOf | src/components/AccessSharedFile.jsx:121-131 | the saved file always has a name and a blob type, because both fall back to a non-empty default |
| AccessShared.DownloadedInfo | src/components/AccessSharedFile.jsx:144-151 | the recorded info is marked downloaded, has a size, and its title is its own file name, never the "Shared File" placeholder |
| AccessShared.DownloadedInfoDescribesSavedFile | src/components/AccessSharedFile.jsx:121-151 | the recorded info's title is the saved file's header-given name and its size the saved byte count |
| AccessShared.AccessPage.constructor | src/components/AccessSharedFile.jsx:25-28 | empty token, not loading, no error, no file info |
| AccessShared.AccessPage.HandleDownload | src/components/AccessSharedFile.jsx:105-161 | a blank token only sets the error; otherwise one request; on success the file is saved and the info recorded only if the page had none; on failure the default error text is shown and the info cleared |
| AccessShared.AccessPage.HandleSearch | src/components/AccessSharedFile.jsx:73-103 | a blank token only sets the error; an info answer is shown, or a placeholder for an empty one; a failed info request falls back to a download judged on the earlier render's info |
| AccessShared.AccessPage.HandlePaste | src/components/AccessSharedFile.jsx:64-71 | the trimmed clipboard text becomes the token; an unreadable clipboard only sets the error |
| AccessShared.AccessPage.HandleClear | src/components/AccessSharedFile.jsx:163-167 | empty token, no info, no error |
| Sizes.UnitIndex | src/components/AccessSharedFile.jsx:60 | the unit index is the power of 1024 at or below the size, with the next power above it |
| Sizes.ScaleAsWrittenTebibyte | src/components/AccessSharedFile.jsx:59-61 | as written, a tebibyte's unit index is 4, one past "GB" |
| Sizes.Scale | src/components/AccessSharedFile.jsx:59-61 | the corrected scaling always uses a listed unit and an amount of at least 1, and below 1024 of it under a tebibyte |
| Sizes.ScaleAgreesBelowTebibyte | src/components/AccessSharedFile.jsx:59-61 | below a tebibyte the corrected and the as-written scalings agree |
| Signup.Requirements | src/components/Signup.jsx:33-39 | the five requirements in their order |
| Signup.Satisfies | src/components/Signup.jsx:33-39 | each requirement's regex test on the password; stated by `StrengthIsSum`, `SatisfiesAppend` and `ShortPasswordAccepted` |
| Signup.Strength | src/components/Signup.jsx:41-47 | the score is at most 5 |
| Signup.StrengthIsSum | src/components/Signup.jsx:41-47 | the score is the number of the five requirements the password meets |
| Signup.StrengthExtremes | src/components/Signup.jsx:33-47 | the score is 5 exactly when all requirements hold, and 0 exactly when none does |
| Signup.SatisfiesAppend | src/components/Signup.jsx:34-38 | typing more never un-meets a requirement |
| Signup.StrengthMonotone | src/components/Signup.jsx:34-38 | typing more at the end never lowers the score |
| Signup.EmptyPasswordStrength | src/components/Signup.jsx:30 | the empty password scores 0, the initial value |
| Signup.ShortPasswordAccepted | src/components/Signup.jsx:33-39 | a 3-character password with an upper-case letter, a lower-case letter and a digit scores 3, enough to submit, without meeting the length rule |
| Signup.CheckPasswordStrength | src/components/Signup.jsx:41-47 | the counting loop gives exactly the score |
| Signup.LevelOf | src/components/Signup.jsx:75-80 | Weak exactly for 0 to 2, Fair for 3, Good for 4, Strong for 5 and above |
| Signup.LevelText | src/components/Signup.jsx:75-80 | the text of each level: "Weak", "Fair", "Good", "Strong" |
| Signup.StrengthColor | src/components/Signup.jsx:68-73 | the colour thresholds are the text's, so each level has one colour |
| Signup.LevelMonotone | src/components/Signup.jsx:75-80 | a higher score never reads as a lower level |
| Signup.MeterPercent | src/components/Signup.jsx:232 | the meter width is exactly score×20 percent: full exactly at 5, empty exactly at 0 |
| Signup.AcceptedIffNotWeak | src/components/Signup.jsx:75-93 | the submit guard accepts exactly the scores the meter does not call Weak |
| Signup.Form.constructor | src/components/Signup.jsx:18-30 | empty fields, hidden passwords, no error, score 0 |
| Signup.Form.HandleChange | src/components/Signup.jsx:49-59 | only the named field changes; the score follows the password and changes only for it; the error is cleared |
| Signup.Form.TogglePassword | src/components/Signup.jsx:61-66 | only the named visibility flag flips |
| Signup.Form.Submit | src/components/Signup.jsx:82-113 | a mismatch is refused first, then a score below 3; only then is the request sent; on success the session is stored and the user navigated, on failure the error is shown |
| Upload.Names | src/components/Upload.jsx:60 | the names of the listed files, position by position |
| Upload.NotYetListed | src/components/Upload.jsx:61 | keeps exactly the chosen files whose names are not yet listed, and keeps them all exactly when none is listed |
| Upload.NotYetListedCount | src/components/Upload.jsx:61 | every copy of a chosen file whose name is not listed is kept, and no copy of one whose name is |
| Upload.NotYetListedIsSubsequence | src/components/Upload.jsx:61 | the files taken keep their order in the selection |
| Upload.RejectedIff | src/components/Upload.jsx:63-65 | the "already selected" message appears exactly when some chosen file's name is already listed |
| Upload.SelectKeepsUniqueNames | src/components/Upload.jsx:56-68 | distinct listed names stay distinct when a selection of distinct names is added |
| Upload.DuplicateWithinOneSelection | src/components/Upload.jsx:61 | whatever is listed, two chosen files sharing a name not yet listed are both taken, so the list then repeats that name |
| Upload.DropCanDuplicate | src/components/Upload.jsx:153-159 | dropping a file whose name is already listed leaves two files of that name |
| Upload.TotalSize | src/components/Upload.jsx:276 | the `reduce` over the listed sizes; stated by `TotalSizeAppend` and `TotalSizeRemoveAt` |
| Upload.TotalSizeAppend | src/components/Upload.jsx:276 | the total of two lists is the sum of their totals |
| Upload.TotalSizeRemoveAt | src/components/Upload.jsx:276 | removing a file takes exactly its size off the total |
| Upload.FormatFileSizeAsWritten | src/components/Upload.jsx:48-54 | the size text as written, with the unlisted index 4; stated by `FormatFileSizeAsWrittenTebibyte` |
| Upload.FormatFileSizeAsWrittenTebibyte | src/components/Upload.jsx:48-54 | as written, one tebibyte is shown in the unit "undefined" |
| Upload.FormatFileSize | src/components/Upload.jsx:48-54 | "0 Bytes" exactly for 0, never "Unknown size", otherwise a scaled amount with a listed unit, as written below a tebibyte |
| Upload.Icon | src/components/Upload.jsx:28-29 | the panel's icon from the file's MIME type alone, a missing type read as ""; stated by `NoTypeMatchesNothing` |
| Upload.ButtonLabel | src/components/Upload.jsx:295 | the submit button's label; stated by `ButtonLabelReadsBack` |
| Upload.ButtonLabelReadsBack | src/components/Upload.jsx:295 | the label reads back its count and ends in "s" exactly when the count is not 1 |
| Upload.NoticeText | src/components/Upload.jsx:63-139 | the exact text of each message the panel shows |
| Upload.UploadedTextReadsBack | src/components/Upload.jsx:129 | the success message reads back the number of files sent |
| Upload.Panel.constructor | src/components/Upload.jsx:21-23 | empty list, no message, not uploading |
| Upload.Panel.HandleFileSelect | src/components/Upload.jsx:56-68 | appends the not-yet-listed chosen files after the old list; the message appears exactly when some were rejected |
| Upload.Panel.HandleDrop | src/components/Upload.jsx:153-159 | appends all dropped files unchecked |
| Upload.Panel.RemoveFile | src/components/Upload.jsx:70-72 | removes exactly that position and keeps the rest in order; an out-of-range index changes nothing |
| Upload.Panel.ClearAll | src/components/Upload.jsx:74-79 | the list becomes empty |
| Upload.Panel.Submit | src/components/Upload.jsx:90-146 | an empty list only shows an error; otherwise one request with all files; success clears the list and notifies, failure keeps it and shows the error |

## Left out

- The server (grants, tokens, expiry enforcement, revocation) is not part of this model. The client only reaches it through HTTP, so each answer is a parameter.
- The `api` module, `localStorage`, the clipboard, `navigate`, the DOM download anchor, `Blob` and object URLs: I/O. Their inputs and outputs are parameters or returned values.
- `formatFileSize` rounding (`toFixed(2)`, `parseFloat`) and the error of floating-point `Math.log`: the amount is kept as an exact rational number, and the unit index is the exact floor of the logarithm.
- Dashboard's own `formatFileSize` (src/components/Dashboard.jsx:116-122) is the same text as Upload's. `Upload.FormatFileSize` and its tebibyte lemma describe it, so it has no member of its own.
- The storage percentage and the progress-bar widths: floating-point display.
- The upload progress simulation (`setInterval`, `Math.random`, upload progress events) and the intermediate "Uploading files..." message, which the final message replaces.
- `setTimeout` clearing of messages, the delayed `onDone` call and the `copied` flag: timers. `Upload.Panel.Submit` returns whether `onDone` is called.
- `copyToClipboard` and `handleCopyToken`: clipboard writes.
- The `onSuccess` and `onClose` callbacks of the share dialog: calls into the parent component.
- The reset of the file input element (`fileInputRef`): DOM state.
- dayjs formatting of dates and the owner, created and expiry lines of the shared page: display only. Remaining time is an integer count of milliseconds turned into truncated minutes.
- Dashboard's `load`, `download`, `deleteFile` and `handleLogout`: HTTP and browser navigation. The bulk handlers return the files they act on instead of calling them.
- JSX rendering: each icon is a `Category` value, and each message a datatype value with its exact text given by a function.
- `src/App.jsx` routing and `RequireAuth` are not part of this model.
- `Signup.Satisfies`: strings are sequences of Unicode scalar values, while `/.{8,}/` without the `u` flag counts UTF-16 code units. A character outside the Basic Multilingual Plane counts once in the model's 8-character rule and twice in the source's. Lone surrogates cannot be represented. So "Aa1!" followed by two emoji meets the length rule in the source (strength 5) and not in the model (strength 4).
- Each async handler (`Upload.Panel.Submit`, `Dashboard.Selection.BulkDownload`, `Dashboard.Selection.BulkDelete`, and the share dialog's and shared page's handlers) is one atomic step. While `api.post` is awaited, only the Upload button is disabled. Files added or removed meanwhile through "Clear all", the remove buttons, the drop zone or the picker are then thrown away by `setFiles([])` (src/components/Upload.jsx:130) without being sent, while the message still counts the files captured by the closure. Likewise `setSelectedFiles([])` (src/components/Dashboard.jsx:154, 164) drops ids toggled during the awaited loop. No sequence of the model's methods produces these interleavings.
- `Text.ToLower`, `Text.ToUpper`: only ASCII letters change case, so full Unicode case mapping is not modelled.
- `ShareModal.ExpiryNumber`: only blank and decimal-digit text is read. The preset buttons store digits, but the custom-duration number inputs (src/components/ShareModal.jsx:288-294 and 439-445) store whatever is typed, such as "1.5", "-60" or "1e3". For those `Number` sends 1.5, -60 or 1000, while the request the model builds carries `None` in place of that number.
- `ShareModal.TimeRemainingText`, `ShareModal.StatusOf`: every user share is taken to carry an expiry instant (`UserShare.expiresAt` is an integer). The "Never expires" preset is offered for user shares too, and what the server then sends is not visible here. With a null `expiresAt`, dayjs gives an invalid date: `isBefore` is false and `diff` is NaN, so the badge reads "NaNd" in green. The model does not represent that case.
- `AccessShared.AccessPage.HandleDownload`: the download asks for an array buffer, so a failed answer's body is bytes with no `error` field, and the page shows its default error text. This assumes the `api` module does not decode error bodies; that module is not part of this model.
- `ShareModal.Dialog.RevokeUserShare`: applies the corrected filter on the grantee's id, not the code's filter on the share record's id (first row under Findings).
- `AccessShared.DownloadNameRoundTrip`: stated for headers whose text before `filename="` has no 'f', so that no earlier match is possible; a general leftmost-match statement is `AccessShared.FirstMatch`'s contract.

## Findings

| source | as written | input that shows it | evidently intended | confidence | as-written member | corrected member |
|---|---|---|---|---|---|---|
| src/components/ShareModal.jsx:157 | `revokeUserShare` drops the entries whose share-record `_id` equals its argument, but the button at line 384 passes `user.grantee._id` | one share with `_id` "s1" for grantee "u1": after a revoke the server accepted, the share is still listed | drop the entries whose `grantee._id` equals the argument | high (not executed) | ShareModal.RevokeUserShareAsWrittenExample | ShareModal.RevokeUserShareRemovesGrantee |
| src/components/AccessSharedFile.jsx:55-62 | the unit is `sizes[i]` with `i = floor(log1024(bytes))`, and `sizes` has four entries | a size of 1099511627776 bytes (one tebibyte) gives `i = 4` and the text "1 undefined" | cap the unit at "GB", or list a "TB" | medium (not executed) | AccessShared.FormatFileSizeAsWrittenTebibyte | AccessShared.FormatFileSize |
| src/components/Upload.jsx:48-54 | the same `sizes[i]` lookup in the upload panel's total | files totalling 1099511627776 bytes show "Total: 1 undefined" | cap the unit at "GB", or list a "TB" | medium (not executed) | Upload.FormatFileSizeAsWrittenTebibyte | Upload.FormatFileSize |
