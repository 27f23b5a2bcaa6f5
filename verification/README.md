# Posting board: composer and finder

A model of the two screens of a small question-and-article board backed by a
document store and an image store.

- The **composer** (`Post`) keeps a form. Its submit guard requires a title and
  tags. It parses the comma-separated tags and assembles a document whose
  fields depend on the post type. With an image, it first uploads the image,
  then resolves the image's download URL, then writes the document. A
  successful write clears the form; a failed write shows the store's message
  and keeps the draft.
- The **finder** (`FindQuestion`) loads every post once. It shows a loading
  message until the load answers, and keeps a filtered view of the list. The
  view is a case-insensitive substring match of the filter against the title or
  any tag. It removes a post from the list once the store confirms its
  deletion.

Modules, in dependency order:

- `Wrappers`: `Option`.
- `Text`: JavaScript's `trim` over the full ECMAScript whitespace set,
  lower-casing, and substring search.
- `Tags`: comma splitting and tag parsing.
- `Records`: the stored document as a field map, the tagged `Post` union, and
  `Encode`/`Decode` between the two.
- `Composer`: the form, the submission state machine, and a log of every
  request to and reply from the stores.
- `Finder`: the filter, the derived view, delete-by-id, and the loading flag.

The stores are not modelled. Each request the composer makes is an entry of an
exchange log. Each reply is an event naming the submission it answers, so any
interleaving of replies can be expressed. A reply that answers nothing pending
changes nothing. The central composer theorem, `SubmissionProtocol`, holds for
every event sequence from the empty form:

- a failed upload or an unresolved URL is never followed by a write;
- an upload is always a submission's first request;
- a write after an upload comes only once the URL has resolved;
- a submission has at most one upload and at most one write.

`WrittenDocumentsArePosts` adds that every written document decodes as a
well-formed post.

## Behaviour worth knowing

The code behaves as follows, and the model does the same:

- Empty tags are kept. `a,,b` has three tags and `,` has two empty tags.
- A successful write clears the texts, the tags and the image. It does not
  reset the post type or an earlier error message.
- The file input appears only in article mode, but the chosen image is kept
  when the type changes. A question submitted afterwards still uploads it.
- A URL that cannot be resolved is not handled. No message is shown and
  nothing is written.

## Model

| member | source | states |
|---|---|---|
| Text.SkipForward | src/components/Post.js:59 | the scan stops at the first non-whitespace character, or at the end |
| Text.SkipBackward | src/components/Post.js:59 | the backward scan stops just after the last non-whitespace character, never below the start |
| Text.Trim | src/components/Post.js:59 | a trimmed tag has no whitespace at either end |
| Text.TrimFrames | src/components/Post.js:59 | the trim of a string sits inside it with only whitespace before and after it |
| Text.TrimUnique | src/components/Post.js:59 | any piece framed by whitespace and free of whitespace at its ends is the trim, so the trim is exactly "remove whitespace at both ends" |
| Text.TrimIdempotent | src/components/Post.js:59 | trimming a tag twice gives the same tag as trimming it once |
| Text.LowerChar | src/components/FindQuestion.js:37-38 | an upper-case ASCII letter becomes the same letter in lower case, the result is never an upper-case ASCII letter, and every other character is unchanged |
| Text.LowerIgnoresCase | src/components/FindQuestion.js:37-38 | two strings lower-case to the same string exactly when they differ only in ASCII case |
| Text.LowerIdempotent | src/components/FindQuestion.js:37-38 | lower-casing twice is lower-casing once |
| Text.Lower | src/components/FindQuestion.js:37-38 | lower-casing keeps the length and lower-cases each character in place |
| Text.ContainsIsSubstring | src/components/FindQuestion.js:37-38 | the left-to-right search succeeds exactly when the needle occurs at some position of the text |
| Text.ContainsEmpty | src/components/FindQuestion.js:34-43 | every text contains the empty filter |
| Tags.Split | src/components/Post.js:59 | splitting at commas gives one more piece than there are commas; no piece holds a comma; the pieces joined with commas are the input |
| Tags.SplitJoin | src/components/Post.js:59 | splitting comma-free pieces joined with commas gives back exactly those pieces, empty ones included |
| Tags.SplitCons | src/components/Post.js:59 | a comma-free first piece followed by a comma splits off as the first piece |
| Tags.SplitSingle | src/components/Post.js:59 | text without a comma splits into itself alone |
| Tags.TrimEach | src/components/Post.js:59 | trimming every piece keeps the number and order of the pieces, and each result is that piece's trim |
| Tags.ParseTags | src/components/Post.js:59 | the tag count is the comma count plus one, so no tag is dropped, and every tag is trimmed |
| Tags.ParseTagsOfJoin | src/components/Post.js:59 | for comma-free pieces joined by commas, the tags are the trimmed pieces in order |
| Tags.ParseTagsCons | src/components/Post.js:59 | a comma-free first piece gives the first tag, and the rest of the text gives the remaining tags |
| Tags.ParseTagsSingle | src/components/Post.js:59 | text without a comma gives a single trimmed tag |
| Tags.TrimKeepsTrimmed | src/components/Post.js:59 | a tag without surrounding whitespace is kept unchanged |
| Tags.TrimDropsPadding | src/components/Post.js:59 | a space on either side of a tag is removed |
| Tags.TrimBlank | src/components/Post.js:59 | a whitespace-only piece becomes the empty tag |
| Tags.ParseTagsFour | src/components/Post.js:59 | four comma-free pieces joined by commas give their four trims, in order |
| Tags.ParseTagsSpacedPieces | src/components/Post.js:59 | padded pieces are trimmed, and a blank piece between two commas gives an empty tag that is kept |
| Tags.ParseTagsExample | src/components/Post.js:59 | `java, web , ,css` parses to `java`, `web`, the empty tag, `css` |
| Tags.ParseTagsLoneComma | src/components/Post.js:59 | a lone comma gives two empty tags |
| Records.ParsePostType | src/components/Post.js:106-118 | only the radio values `question` and `article` name a post type, and each names the type that prints as it |
| Records.Assemble | src/components/Post.js:55-73 | the document has the five common fields plus exactly the selected type's fields; a question carries no abstract or article text and an article no description; each field holds the draft's value, with the parsed tags, the given image URL and the clock reading |
| Records.Encode | src/components/Post.js:56-73 | a post's document has exactly the common fields and its variant's fields |
| Records.DecodeEncode | src/components/Post.js:56-73 | every post reads back unchanged from its document |
| Records.EncodeDecode | src/components/Post.js:56-73 | a document that reads back as a post is exactly that post's document |
| Records.AssembleIsPost | src/components/Post.js:55-73 | the assembled document reads back as a post of the selected type carrying the draft's title and texts, the parsed tags, the image URL and the timestamp |
| Composer.UploadPathInjective | src/components/Post.js:34 | two upload paths are equal exactly when the file names are equal |
| Composer.ApplyEdit | src/components/Post.js:16-24 | an edit changes only its own field; choosing no file keeps the image chosen before |
| Composer.Submit | src/components/Post.js:26-53 | without a title or without tags, only the required-fields error is set and nothing is sent; otherwise a numbered submission either uploads the image to `images/<name>` or writes the assembled document with an empty image URL, and the form is untouched |
| Composer.OnUploadError | src/components/Post.js:38-40 | a failed upload shows its message, ends the submission, and writes nothing |
| Composer.OnUploadComplete | src/components/Post.js:41-47 | once the URL resolves, the document assembled from the draft captured at the click is written with that URL |
| Composer.OnUrlError | src/components/Post.js:42-47 | an unresolved URL ends the submission silently and writes nothing |
| Composer.ClearAfterWrite | src/components/Post.js:76-83 | after a successful write the success message is set, the texts, tags and image are cleared, the post type and error stay, and the form no longer passes the guard |
| Composer.OnWriteOk | src/components/Post.js:75-84 | an accepted write clears the form and ends the submission |
| Composer.OnWriteError | src/components/Post.js:85-87 | a rejected write shows the store's message, keeps every draft field, and ends the submission |
| Composer.RetryAfterWriteError | src/components/Post.js:85-87 | after a rejected write, clicking Post again resubmits the same draft: an immediate write of its document without an image, or a new upload of the same file with one |
| Composer.NoResubmitAfterWriteOk | src/components/Post.js:76-83 | after an accepted write, clicking Post again only shows the required-fields error and sends nothing |
| Composer.StepAgrees | src/components/Post.js:26-87 | each handler keeps every submission's exchange in step with its pending state |
| Composer.StepInv | src/components/Post.js:26-87 | each step keeps histories and pending states in agreement, and writes only well-formed posts |
| Composer.RunInv | src/components/Post.js:26-87 | the same invariant holds after any sequence of user actions and store replies |
| Composer.AllowedFailureStops | src/components/Post.js:38-47 | in every possible history, an upload error or URL error excludes a write |
| Composer.AllowedUploadFirst | src/components/Post.js:33-47 | in every possible history, an upload comes first, and a write after it is preceded by the resolved URL |
| Composer.AllowedOnce | src/components/Post.js:33-52 | every possible history has at most one upload and at most one write |
| Composer.SubmissionProtocol | src/components/Post.js:33-52 | for any run from the empty form and any submission: no write after a failed upload or unresolved URL, the upload first, the write only after the URL, at most one upload and one write |
| Composer.WrittenDocumentsArePosts | src/components/Post.js:55-75 | every document written in any run is a well-formed post |
| Finder.Select | src/components/FindQuestion.js:35-39 | filtering keeps, in order, exactly the elements passing the test, each as often as it occurs, and changes nothing when all pass |
| Finder.SelectIdempotent | src/components/FindQuestion.js:35-39 | filtering twice with the same test equals filtering once |
| Finder.MatchesIsWanted | src/components/FindQuestion.js:36-38 | a post matches exactly when the lower-cased filter is a substring of its lower-cased title or of one of its lower-cased tags |
| Finder.MatchesIgnoresFilterCase | src/components/FindQuestion.js:37-38 | two filters that differ only in ASCII case match exactly the same posts |
| Finder.Keep | src/components/FindQuestion.js:34-40 | the matching posts, in list order, each kept as often as it occurs |
| Finder.KeepEmptyFilter | src/components/FindQuestion.js:33-44 | every post matches the empty filter, so the effect's empty-filter branch agrees with filtering |
| Finder.View | src/components/FindQuestion.js:33-44 | the shown list is the full list for an empty filter and otherwise the order-preserving selection of the matching posts, duplicates included |
| Finder.ViewMembership | src/components/FindQuestion.js:34-39 | under a non-empty filter a post is shown exactly when it is listed and the filter is a substring of its title or a tag, ignoring ASCII case |
| Finder.ViewIdempotent | src/components/FindQuestion.js:33-44 | filtering the shown list again with the same filter changes nothing |
| Finder.RemoveId | src/components/FindQuestion.js:49 | removing an id keeps, in order and with their multiplicities, exactly the posts with another id, and changes nothing when the id is absent |
| Finder.Shown | src/components/FindQuestion.js:56-58 | nothing but the loading message is shown while loading |
| Finder.Refilter | src/components/FindQuestion.js:33-44 | the filter effect makes the shown list the view of the list for the current filter and touches nothing else |
| Finder.OnFetched | src/components/FindQuestion.js:15-22 | a successful load stores the fetched posts, ends loading, and shows their view |
| Finder.OnFetchFailed | src/components/FindQuestion.js:23-26 | a failed load only ends loading |
| Finder.OnFilterTyped | src/components/FindQuestion.js:63-69 | typing sets the filter and the shown list follows it |
| Finder.OnDeleted | src/components/FindQuestion.js:46-50 | after a confirmed delete, no post with that id is listed or shown, and the shown list is the view of the remaining posts |
| Finder.DeleteFailedKeepsState | src/components/FindQuestion.js:51-53 | a delete the store refused leaves the list, the filter, the shown list and the loading flag unchanged |
| Finder.StepConsistent | src/components/FindQuestion.js:33-44 | every event keeps the shown list equal to the view of the list |
| Finder.RunConsistent | src/components/FindQuestion.js:33-44 | after any events the shown list is the view of the list for the current filter |
| Finder.RunLoading | src/components/FindQuestion.js:20-25 | loading lasts exactly until the load answers, either way, and never returns |
| Finder.RunWithoutFetchIsEmpty | src/components/FindQuestion.js:6 | without a successful load the list stays empty, whatever deletes are confirmed |
| Finder.FromMount | src/components/FindQuestion.js:6-9 | from mount the screen stays consistent and shows nothing before the load answers |

## Left out

- The image store, the document store and the network are not modelled. Their requests appear in an exchange log and their replies are events, so replies may arrive in any order.
- Upload progress reports are not modelled. The source ignores them.
- The server-side ordering of the load by timestamp is not modelled. The fetched list is taken in the order it arrives.
- Error logging to the console is not modelled.
- The clock reading for a new document is an input. The model never inspects it.
- The document id the store assigns on a write is not modelled, because the composer never reads it.
- Rendering, the form's `required` attributes, navigation links, the post-details page and the routing module are not modelled. They hold no logic of the composer or the finder.
- Each callback runs as one atomic step. React's batching of state updates within a callback is not modelled, because the callbacks set independent fields.
- Composer.UploadPathInjective: an image file is modelled by its name alone. Two different files with the same name go to the same path, and the later upload replaces the earlier image in the store. Because the image store is not modelled, that overwrite is not visible.
- Text.Lower: lower-cases ASCII letters only. JavaScript's `toLowerCase` also folds non-ASCII letters, and Unicode case tables are out of scope.
- Text.Trim: strings are sequences of Unicode scalar values. JavaScript strings are UTF-16 code units, so a lone surrogate cannot be expressed.
- Finder.Item: every loaded document is typed as an already decoded `Post`. The source spreads whatever the store holds. A document without a title or tags would throw a TypeError while filtering or rendering, and the model has no such failure.
- Finder.Step: accepts a repeated load answer and filter typing while loading. The source loads once and shows no filter input while loading. The model therefore allows more runs than the source, and every property proved for it also holds for the source's runs.
