# ats: navigation and filtering core, modelled in Dafny

`ats` is a terminal browser for AWS Elastic Container Registry (ECR). It lists
the repositories of an account, drills into the images of one repository, keeps
a stack of views to come back through, narrows every view with a
case-insensitive search filter, keeps the highlighted row inside the
visible rows, and copies a repository URI or an image reference to the
clipboard.

This project models the core of that program and proves properties of the
model:

- `Traits` (`traits.dfy`) holds the service contract's value types, the
  coordinate of a view (`ViewState`) and the default filtering
  (`FilterData`). Filtering is proved to keep exactly the accepted items, in
  order, with their multiplicities. It is also proved idempotent, and to be the
  identity under the default predicate.
- `Ecr` (`ecr.dfy`) is the registry service:
  - repositories and images as one sum type `ResourceItem`;
  - conversion of registry image records;
  - the push-time ordering, proved on an in-place insertion sort over an
    array;
  - loading against a `Remote` value that stands for the registry;
  - the filter predicate;
  - the drill-down, which packs `name|uri` into the view context, with a proved
    round trip;
  - clipboard export;
  - the empty-state messages.
- `Manager` (`manager.dfy`) is the registry of services and the per-service
  data cache, as a class over two maps.
- `App` (`app.dfy`) is the controller. Each transition is a function over
  `AppState`, a value with every controller field. The class `App` updates
  those fields in place, and each method promises that its new state is that
  function of the old state. The main invariant is `SelectionInRange`: the
  highlighted index is a row of the current view, or 0 when the view is empty.
  It is proved preserved by every key event and by any sequence of key
  presses, each handled at its own time with its own clipboard answer.
- `Text` (`text.dfy`) holds the string helpers the rules rely on: ASCII
  lower-casing, substring search proved against a reference definition,
  splitting with a proved round trip, and decimal formatting with a proved
  round trip.

The clock is an explicit millisecond timestamp `now`. The clipboard's
response is an explicit input `Clipboard` (`Unavailable`, `Rejects`,
`Accepts`). What the registry answers is an explicit input `Remote`.

## Model

| member | source | states |
|---|---|---|
| Traits.NewViewState | src/services/traits.rs:66-74 | a fresh view has the given service and type, selection 0, empty filter and no context |
| Traits.FilterData | src/services/traits.rs:101-114 | an empty filter returns the items unchanged; the result is never longer than the input |
| Traits.Keep | src/services/traits.rs:108-113 | the kept items are never more than the input (what is kept, how often and in which order are the three lemmas below) |
| Traits.KeepAccepts | src/services/traits.rs:108-113 | every kept item satisfies the predicate |
| Traits.FilterDataKeepsExactlyAccepted | src/services/traits.rs:101-114 | the result is a subsequence of the input; under a non-empty filter it contains exactly the accepted items, each as often as in the input |
| Traits.KeepCounts | src/services/traits.rs:108-113 | keeping an item under a predicate keeps each accepted item with its full multiplicity and drops every rejected one |
| Traits.KeepIsSubsequence | src/services/traits.rs:108-113 | keeping preserves the input order |
| Traits.DefaultMatchesFilter | src/services/traits.rs:116-118 | the default predicate accepts every item |
| Traits.KeepAllIsIdentity | src/services/traits.rs:108-118 | under the default predicate, keeping returns the input for any filter |
| Traits.DefaultFilterIsIdentity | src/services/traits.rs:101-118 | under the default predicate, filtering returns the input for any filter |
| Traits.KeepIdempotent | src/services/traits.rs:108-113 | keeping is idempotent |
| Traits.FilterIdempotent | src/services/traits.rs:101-114 | filtering an already filtered view with the same filter changes nothing |
| Text.Lower | src/services/ecr.rs:309-323 | lower-casing keeps the length, maps each character, and leaves no upper-case ASCII letter |
| Text.Contains | src/services/ecr.rs:309-323 | `contains` holds exactly when the needle occurs at some position of the haystack |
| Text.Split | src/services/ecr.rs:278-282 | splitting yields at least one piece and no piece holds the separator |
| Text.JoinSplit | src/services/ecr.rs:278-282 | joining the pieces with the separator gives the input back |
| Text.SplitPacked | src/services/ecr.rs:235-237 | splitting `a + sep + b`, where `a` has no separator, gives `a` followed by the pieces of `b` |
| Text.NatToDecimal | src/services/ecr.rs:100-103 | the numeral is non-empty, all digits, without a leading zero |
| Text.DecimalRoundTrip | src/services/ecr.rs:100-103 | reading the numeral back gives the number |
| Ecr.ItemId | src/services/ecr.rs:41-58 | a repository's id is its name and an image's id is its digest |
| Ecr.VulnerabilitySummary | src/services/ecr.rs:98-109 | no scan summary gives no text; a summary without counts gives "Scan pending"; counts give the decimal total with " findings" when positive, else "No vulnerabilities" |
| Ecr.SummaryReportsTotal | src/services/ecr.rs:100-103 | for a positive total, the text ends in " findings", its prefix is the decimal numeral of the total, and it differs from both fixed messages |
| Ecr.FromImageDetail | src/services/ecr.rs:94-121 | the image gets the first tag or none, the digest or "", the push time, the size and the scan summary text |
| Ecr.ConvertAll | src/services/ecr.rs:152 | every record is converted, position by position |
| Ecr.ComparePushed | src/services/ecr.rs:155-162 | `Less` exactly when the first image is dated and pushed later than the second or the second is undated; `Greater` in the mirrored case; `Equal` exactly when both push times are the same or both are missing |
| Ecr.InOrderTotal | src/services/ecr.rs:155-162 | for any two images, at least one of them may stand first under the comparator |
| Ecr.InOrderTransitive | src/services/ecr.rs:155-162 | the comparator's order is transitive |
| Ecr.SortedMeansDatedFirstNewestFirst | src/services/ecr.rs:155-162 | a list sorted by the comparator has every dated image before every undated one, with dated images in non-increasing push time |
| Ecr.SortByPushed | src/services/ecr.rs:155-162 | in-place sort: the array is a permutation of its old contents, sorted by the comparator, dated first and newest first |
| Ecr.SortImages | src/services/ecr.rs:152-162 | the result is a permutation of the input, sorted dated first and newest first |
| Ecr.GetRepositoryImages | src/services/ecr.rs:144-166 | a failed fetch passes its error on; a successful one yields a permutation of the converted records, dated first and newest first |
| Ecr.PackContext | src/services/ecr.rs:235-237 | the context is the name, then the separator, then the URI, and nothing else |
| Ecr.ContextRepositoryName | src/services/ecr.rs:193 | the name read from a context is its prefix before the first separator, and holds no separator |
| Ecr.ContextRoundTrip | src/services/ecr.rs:193-237 | unpacking the packed context of a repository whose name has no `\|` gives the name back |
| Ecr.LoadData | src/services/ecr.rs:179-207 | a list view loads the repositories; a detail view with context loads the sorted images of the context's repository; no context or a custom view gives no items; fetch errors are passed on |
| Ecr.RepositoryItems | src/services/ecr.rs:182-188 | each repository becomes one item, in order |
| Ecr.ImageItems | src/services/ecr.rs:195-200 | each image becomes one item, in order |
| Ecr.RepositoryMatches | src/services/ecr.rs:310-313 | a repository matches exactly when the lower-cased filter occurs in its lower-cased name |
| Ecr.ImageMatches | src/services/ecr.rs:314-319 | an image matches exactly when it has a tag and the lower-cased filter occurs in the lower-cased tag |
| Ecr.MatchesFilter | src/services/ecr.rs:309-323 | the predicate dispatches on the item kind to the repository or image rule |
| Ecr.FilterItems | src/services/traits.rs:101-114 | the service's filtered view: all items without a filter, never more items than cached, and every shown item matches a non-empty filter |
| Ecr.HandleEnter | src/services/ecr.rs:224-246 | a new view exists exactly for a list view whose highlighted filtered item is a repository; the new view is a detail view of the same service with reset selection and filter and context `name\|uri` |
| Ecr.EnterLoadsSelectedRepository | src/services/ecr.rs:193-237 | the detail view that Enter opens names exactly the highlighted repository, when the name has no `\|` |
| Ecr.ShortDigest | src/services/ecr.rs:289-293 | a digest up to 36 characters is kept; a longer one becomes its first 36 characters followed by "..." |
| Ecr.ContextParts | src/services/ecr.rs:276-282 | the name is the context's text before the first `\|`; the URI is the text after it up to the next `\|`, or the fallback `unknown.dkr.ecr.region.amazonaws.com` when the context has no `\|` |
| Ecr.ImageCopyContent | src/services/ecr.rs:284-297 | a tagged image exports `uri:tag` labelled `name:tag`; an untagged one exports `uri@digest` labelled `name@` followed by the shortened digest |
| Ecr.GetCopyContent | src/services/ecr.rs:248-307 | nothing when the selection is outside the filtered view or the view is custom; a repository's URI labelled by its name in a list view; an image's reference built from the context's parts in a detail view |
| Ecr.CopyAfterEnter | src/services/ecr.rs:224-307 | after drilling into a repository, copying a tagged image exports `uri:tag` labelled `name:tag` of that repository, whatever the detail view's selection and filter have become |
| Ecr.EmptyMessage | src/services/ecr.rs:350-357 | the loading message wins; otherwise a non-empty filter gives "no match" and an empty one gives "not found", per table |
| Ecr.EmptyStateMessage | src/services/ecr.rs:477-484 | a message is shown exactly when a list or detail view has no filtered rows, and it is the table's empty message |
| Ecr.EmptyLoadIsNotFound | src/services/ecr.rs:350-357 | an empty load without a filter reports "not found"; a non-empty filter that hides every row reports "no match" |
| Ecr.Metadata | src/services/ecr.rs:170-177 | the service's id and command are both "ecr" |
| Manager.ServiceManager.constructor | src/services/manager.rs:13-18 | the registry and the cache start empty |
| Manager.ServiceManager.RegisterService | src/services/manager.rs:20-24 | the service is stored under its metadata id, replacing any earlier one, and nothing else changes |
| Manager.ServiceManager.GetService | src/services/manager.rs:26-28 | the service is found exactly when its id is registered |
| Manager.ServiceManager.GetServiceMetadata | src/services/manager.rs:30-35 | one metadata entry per registered service, and each one belongs to a registered service |
| Manager.ServiceManager.GetServiceByCommand | src/services/manager.rs:37-44 | a registered service with that command is returned, and none exactly when no registered service has it |
| Manager.ServiceManager.LoadServiceData | src/services/manager.rs:46-56 | an unknown id succeeds with no change; a failed load changes nothing and reports the error; a successful load replaces only that id's cache slot with what the service loaded |
| Manager.ServiceManager.GetServiceData | src/services/manager.rs:58-60 | cached data is found exactly when the id has a slot |
| Manager.ServiceManager.ClearServiceData | src/services/manager.rs:62-64 | only the slot of that id is dropped |
| Manager.ServiceManager.HasService | src/services/manager.rs:66-68 | true exactly when looking the id up finds a service |
| Manager.ServiceManager.ListServices | src/services/manager.rs:70-72 | every registered id exactly once and nothing else |
| App.InitialState | src/app.rs:39-60 | the controller starts running in normal mode on the repository list, with selection 0, no filter, an empty stack and the selection in range |
| App.FilterRepositories | src/app.rs:210-223 | without a filter every repository is shown; the list is never longer than the loaded one |
| App.FilterImages | src/app.rs:270-288 | without a filter every image is shown; the list is never longer than the loaded one |
| App.KeepRepositoriesAgrees | src/app.rs:214-221 | keeping repositories by name and keeping their service items by the service's predicate give the same items |
| App.KeepImagesAgrees | src/app.rs:274-287 | keeping images by tag and keeping their service items by the service's predicate give the same items |
| App.RepositoryFilterAgreesWithService | src/app.rs:210-223 | the repository list the controller shows is the service's filtered view of the same repositories |
| App.ImageFilterAgreesWithService | src/app.rs:270-288 | the image list the controller shows is the service's filtered view of the same images |
| App.SaturatingPred | src/app.rs:110-111 | `n - 1`, saturating at 0 |
| App.ExpireCopyStatus | src/app.rs:202-208 | a status that survives is unchanged and younger than 3000 ms; one younger than 3000 ms survives |
| App.Refreshed | src/app.rs:195-200 | loading is set, the error is cleared, the refresh time is recorded, an expired status is dropped, and nothing else changes |
| App.ErrorSet | src/app.rs:236-239 | loading ends and the error is shown; nothing else changes |
| App.RepositoriesSet | src/app.rs:225-234 | the repositories are stored, loading ends, the error clears, and the selection never moves down (the full effect is `RepositoriesSetEffect`) |
| App.RepositoriesSetEffect | src/app.rs:225-234 | the repositories are stored, loading ends, the error clears; the selection is kept if within the filtered rows, else clamped to the last one; nothing else changes; the selection is in range afterwards on the repository list |
| App.ImagesSet | src/app.rs:290-309 | the images are stored, loading ends, the error clears, and the selection never moves down (the full effect is `ImagesSetEffect`) |
| App.ImagesSetEffect | src/app.rs:290-309 | the same for images: stored, loading ends, error cleared, selection kept or clamped, nothing else changed, in range on the image list |
| App.EnterKey | src/app.rs:241-259 | either nothing changes, or the repository list is pushed and the image list shows (the full effect is `EnterKeyEffect`) |
| App.EnterKeyEffect | src/app.rs:241-259 | with a highlighted repository: the list is pushed, the image list shows, the repository is remembered, selection and filter reset, loading set, the error cleared, the refresh time recorded, an expired copy status dropped, and no other field changes; in every other case nothing changes |
| App.EscapeKey | src/app.rs:261-268 | with an empty stack nothing changes; otherwise the top view is popped and restored, the repository forgotten, and selection and filter reset |
| App.EnterThenEscape | src/app.rs:241-268 | drilling in and going back restores the view and the stack |
| App.RepositoryUriFor | src/app.rs:337-344 | the URI of the first loaded repository with that name, or the placeholder `unknown.dkr.ecr.region.amazonaws.com/<name>` when none has it |
| App.CopyContent | src/app.rs:317-372 | on the repository list, `uri for name` labelled by the name; on the image list, the image's reference within the remembered repository, present exactly when a row is highlighted and a repository is remembered |
| App.CopiedMessage | src/app.rs:380 | the status text is a check mark and a space, then the label, then " copied" |
| App.Copied | src/app.rs:311-381 | when the clipboard takes the text, the status records "✓ label copied" and the time; in every other case nothing changes |
| App.DropLast | src/app.rs:142-144 | the last character is removed, and the empty buffer is unchanged |
| App.Executed | src/app.rs:179-193 | quit/q stops; ecr shows the repository list at selection 0 and refreshes; refresh/r refreshes; any other command changes nothing |
| App.CommandKey | src/app.rs:128-148 | Esc leaves command mode and clears the buffer; Enter runs the command, then does the same; characters append; Backspace deletes; other keys change nothing |
| App.SearchKey | src/app.rs:150-177 | every edit makes the filter the buffer and resets the selection; Enter keeps the filter and leaves search; Esc clears both; other keys change nothing, and no other field changes |
| App.Binding | src/app.rs:83-124 | each normal-mode action is bound to exactly the key combinations listed, in the source's arm order |
| App.Perform | src/app.rs:83-124 | moving up stops at 0, moving down stops at the last filtered row, and quitting, the prompts and ignored keys change only what they name; refreshing is `Refreshed`, opening is `EnterKey`, going back is `EscapeKey` and copying is `Copied` |
| App.NormalKey | src/app.rs:82-126 | no normal-mode key changes the loaded data or the AWS settings; only the two prompts touch the input mode and buffer, and they empty the buffer; quitting, refreshing, the prompts, copying and ignored keys keep the view, filter and selection |
| App.KeyStep | src/app.rs:74-80 | no key event changes the loaded data or the AWS settings, and outside normal mode the view stack and the remembered repository stay the same |
| App.NormalKeyStep | src/app.rs:85-122 | in normal mode, Enter is the drill-down, Esc is going back, r and Control-r are the refresh, and c is the copy |
| App.PerformKeepsSelectionInRange | src/app.rs:82-126 | no normal-mode action takes the selection outside the current view |
| App.CommandKeyKeepsSelectionInRange | src/app.rs:128-148 | no command-mode key takes the selection outside the current view |
| App.KeyStepKeepsSelectionInRange | src/app.rs:74-80 | no key event, in any mode, takes the selection outside the current view |
| App.RunKeysKeepsSelectionInRange | src/app.rs:74-80 | no sequence of key presses, each at its own time and with its own clipboard answer, takes the selection outside the current view |
| App.EnterEscapeKeysRestoreView | src/app.rs:97-102 | pressing Enter then Esc in normal mode on a highlighted repository, at any two times and whatever the clipboard answers, comes back to the repository list with the stack as it was |
| App.App.constructor | src/app.rs:63-65 | the fields are the initial state |
| App.App.WithAwsConfig | src/app.rs:67-72 | the initial state with the given profile and region |
| App.App.FilteredRepositories | src/app.rs:210-223 | all repositories without a filter; otherwise exactly those whose name contains the filter, ignoring case; always a subsequence of the loaded list, in its order |
| App.App.FilteredImages | src/app.rs:270-288 | all images without a filter; otherwise exactly those with a tag that contains the filter, ignoring case; always a subsequence of the loaded list, in its order |
| App.App.HandleKeyEvent | src/app.rs:74-80 | the new state is `KeyStep` of the old one: dispatch on the input mode |
| App.App.HandleNormalMode | src/app.rs:82-126 | the new state is `Perform` of the key's binding |
| App.App.HandleCommandMode | src/app.rs:128-148 | the new state is `CommandKey` of the old one |
| App.App.HandleSearchMode | src/app.rs:150-177 | the new state is `SearchKey` of the old one |
| App.App.ExecuteCommand | src/app.rs:179-193 | the new state is `Executed` of the old one |
| App.App.RefreshData | src/app.rs:195-200 | the new state is `Refreshed` of the old one |
| App.App.ClearExpiredCopyStatus | src/app.rs:202-208 | only the copy status changes, to `ExpireCopyStatus` of the old one |
| App.App.SetEcrRepositories | src/app.rs:225-234 | the new state is `RepositoriesSet` of the old one (its effect is `RepositoriesSetEffect`) |
| App.App.SetError | src/app.rs:236-239 | the new state is `ErrorSet` of the old one |
| App.App.HandleEnterKey | src/app.rs:241-259 | the new state is `EnterKey` of the old one (its effect is `EnterKeyEffect`) |
| App.App.HandleEscapeKey | src/app.rs:261-268 | the new state is `EscapeKey` of the old one |
| App.App.SetEcrImages | src/app.rs:290-309 | the stored images are a permutation of the given ones, dated first and newest first, and the new state is `ImagesSet` of the old one with them |
| App.App.CopySelectedToClipboard | src/app.rs:311-382 | the new state is `Copied` of the old one |

## Left out

- Rendering is not modelled: tables, titles, header, footer, input line and layout (`render`, `render_repositories`, `render_images`, `src/ui/`). This includes the human-readable size format, which uses floating point. Only the empty-state messages, which are pure choices, are modelled.
- `src/main.rs` is not part of this model. It is the event loop that wires terminal events, AWS calls and the controller together, which is I/O and concurrency.
- `src/utils/aws.rs` is not part of this model: AWS profile and region discovery reads files and the environment.
- The AWS SDK calls `describe_repositories` and `describe_images` become the input `Remote`. The conversion `From<&Repository>` is left out with them: the repository record arrives already converted. Timestamps are integers, and the `Utc::now` fallback for an unrepresentable push time is not modelled.
- `Text.Lower`: lower-cases ASCII letters only, while Rust's `to_lowercase` covers every Unicode letter.
- `Ecr.VulnerabilitySummary`: sums the severity counts as mathematical integers and does not model the wrap-around of the source's 32-bit sum.
- `Ecr.ShortDigest`: counts and cuts characters, while the source compares and slices the digest's UTF-8 bytes. They agree on the ASCII digests the registry issues.
- `Ecr.SortByPushed`: an insertion sort stands in for the standard library's stable `sort_by`. It promises a permutation sorted by the same comparator, dated first and newest first. It does not promise that images with equal push times keep their fetched order. The insertion sort moves an image only past a strictly greater neighbour, so it is stable, but stability is not proved.
- `Ecr.SortImages`: promises the sorted permutation of `Ecr.SortByPushed` and, like it, not stability.
- `Ecr.GetRepositoryImages`: the cached images are the sorted permutation of the fetched ones; the order among images with equal push times is not promised.
- `App.App.SetEcrImages`: the stored images are the sorted permutation of the given ones; the order among images with equal push times is not promised.
- `Manager.ServiceManager.GetServiceMetadata` and `Manager.ServiceManager.ListServices`: the order of a `HashMap` iteration is modelled as a nondeterministic choice of the next key. Only the contents are promised, as in the source.
- The service registry holds only the ECR service (`Service = EcrService`): the source has no other implementation of the service contract. Reference counting, `Send`/`Sync` and `async` are not modelled.
- The clipboard is an input saying whether it opens and whether it takes the text. The system clipboard itself is not modelled.
- `Instant` is an integer millisecond timestamp `now` passed to each operation that reads the clock. `last_refresh` is only recorded, as in the source.
- The key handlers return `Result<()>` in the source and always return `Ok(())`. The model's methods return nothing.
- `App.CopyContent`: as in `src/app.rs`, the repository view copies `uri for name`. The service's own `Ecr.GetCopyContent` copies the bare URI. Both behaviours are modelled as written, and the controller's is the one the key binding uses.
