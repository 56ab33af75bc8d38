# Discord photo gallery builder — verified model of its core

The gallery builder is a Discord bot. It connects to the gateway and waits until every guild it belongs to has loaded. The operator then picks a guild and one of its channel categories. For each text channel in that category, the bot:

- reads the channel's message history;
- attributes the channel to the author who posted the most image-bearing messages;
- collects every image attachment, oldest first, as a gallery picture with a thumbnail path under `built_websites`;
- titles the gallery after the channel's name, e.g. `jane-doe` becomes `Jane D. (author)`.

The galleries are sorted by title into one page record. Separately, `download_image` fetches a thumbnail into the website tree unless one is already there, and returns the thumbnail's path relative to the website root.

This project models three parts of that program in Dafny and proves their properties:

- **`GuildLoading`** (guild_loading.dfy) models the guild-loading state machine, `State` and `handle_event`.
  - It is a class `GatewayState` with a `state` field and a count of done signals sent.
  - There is one method per event kind. `HandleEvent` is proved against the pure transition function `Step`.
  - Lemmas cover whole event runs: completion, the zero-guild case, extra arrivals, and independence from arrival order.
  - Each event is handled in its own spawned task, so a handler's panic ends only that handler. `Run` keeps the state, counts the panic and goes on with the next event.
  - A `GuildCreate` handled before `Ready` is lost (see "## Findings"). `BufferedRun` is a corrected handling that holds such guilds back until `Ready`.
  - The typestate variant (`mod state_machine`) is modelled as three datatypes and its two transitions.
- **`GalleryAssembly`** (gallery.dfy) models `is_attachment_image` and the body of `ask_user_for_guild_channel` after its console prompts:
  - category and channel selection;
  - the attribution loop over a `BTreeMap`, modelled as a strictly ascending list of entries, in method `AttributeAuthor`;
  - picture extraction;
  - titles;
  - the channel loop with its final sort, in method `AssembleGalleries`;
  - the page record, in method `BuildGalleryPage`.

  Each method is proved against a pure specification: `IsAttributedAuthor`, `DominantAuthor` and `CollectGalleries`.
- **`ThumbnailDownload`** (thumbnail.dfy) models `download_image` as a class `ThumbnailStore` holding:
  - the files and directories of the website tree;
  - the URLs fetched;
  - the lines printed.

  Its method `DownloadImage` is proved equal to the transition function `Download`. The lemmas about `Download` state:
  - where the thumbnail goes;
  - when the CDN is asked;
  - that a second download is skipped;
  - that nothing is lost.

Supporting modules:

- **`Strings`** holds `Option`, `Result` with panics as values, Rust string order, `split`, and ASCII case conversion.
- **`Sorting`** holds order-keeping filtering and a stable sort by key.
- **`Paths`** holds URL paths, `trim_start_matches('/')`, `Path::join`, `strip_prefix`, `parent` and `create_dir_all`.
- **`ChannelNames`** holds `parse_author_name_from_channel_name`.

Panics are modelled as an `Err(panic)` result. A method that panics keeps the changes it made before the panic, as the program does. The outside world is given as parameters:

- gateway events;
- the operator's choices, as indices;
- each channel's fetched history, as a map from channel id to messages;
- whether the image fetch, the directory creation and the JPEG save succeed.

Three behaviours of the code differ from what a reader might expect; the model follows the code:

- **Tie-break.** Counts live in a `BTreeMap` and `max_by_key` returns the last maximum. A tie in image-message counts therefore goes to the lexicographically greatest author name, not to the first author encountered.
- **`Ready` resets.** A `Ready` event restarts loading from any state, including `Done`. It is not treated as an error.
- **Completion test.** Completion is tested with `>=` after the push. A `Ready` announcing zero guilds therefore does not complete by itself: it completes, with one guild, on the first `GuildCreate` that arrives.

## Model

| member | source | states |
|---|---|---|
| GuildLoading.GatewayState.constructor | src/main.rs:43 | loading starts in `PreReady` with no done signal sent |
| GuildLoading.GatewayState.OnReady | src/main.rs:150-158 | from any state, the state becomes `Ready` expecting as many guilds as the event lists, with none loaded; no signal is sent |
| GuildLoading.GatewayState.OnGuildCreate | src/main.rs:161-185 | while `Ready`, exactly this guild is appended. Below the total, it stays `Ready` and nothing else changes. At or above the total, it becomes `Done`: the guilds are sorted by name, are a permutation of the arrived ones plus this one, and exactly one signal is sent. In any other state it panics and changes nothing. The loading invariant is kept |
| GuildLoading.Step | src/main.rs:143-190 | one `handle_event` call as a function: it panics exactly for a `GuildCreate` outside `Ready`, and a done signal is sent only by a `GuildCreate` that moves `Ready` to `Done` |
| GuildLoading.Run | src/main.rs:55-63 | events handled one after another, each in its own task: a panicking handler leaves the state as it was and later events are still handled; at most one signal or panic per event |
| GuildLoading.GatewayState.HandleEvent | src/main.rs:143-190 | each call is one atomic transition equal to `Step`, with its panic or its `Ok(())`, new state and signal count |
| GuildLoading.StepKeepsInvariant | src/main.rs:164-181 | every transition keeps two facts: while loading, fewer guilds than announced have arrived (or none); once done, the list is sorted by name |
| GuildLoading.ReadyRestartsLoading | src/main.rs:150-158 | a `Ready` event gives `Ready(count of guilds, [])` whatever the prior state |
| GuildLoading.GuildCreateWhileLoading | src/main.rs:164-181 | below the total, exactly one record is appended. At or above it (`>=`), the result is `Done` with a sorted permutation of the arrived records, and the signal is sent |
| GuildLoading.GuildCreateOutsideLoadingPanics | src/main.rs:182-184 | a `GuildCreate` in `PreReady` or `Done` is the "Wrong state!" panic |
| GuildLoading.OtherEventsIgnored | src/main.rs:186 | any other event leaves the state unchanged |
| GuildLoading.PartialArrivals | src/main.rs:164-173 | arrivals that stay below the total only accumulate, in arrival order, with no signal and no panic |
| GuildLoading.CompletingArrivals | src/main.rs:164-181 | the arrival that reaches the total gives `Done` with all arrived guilds sorted by name, after exactly one signal and no panic |
| GuildLoading.LoadCompletesOnce | src/main.rs:150-181 | `Ready` announcing n >= 1 guilds, then n arrivals, gives `Done(sorted guilds)` with exactly one signal and no panic |
| GuildLoading.EmptyAnnouncementWaitsForOneArrival | src/main.rs:150-181 | a `Ready` with zero guilds stays `Ready(0, [])`; the first arrival completes with that one guild |
| GuildLoading.ExtraArrivalPanics | src/main.rs:174-184 | a `GuildCreate` beyond the announced count arrives in `Done`; its handler panics and the completed state and its one signal stay |
| GuildLoading.PanicsBeforeReady | src/main.rs:161-184 | every `GuildCreate` handled in `PreReady` panics and changes nothing |
| GuildLoading.EarlyArrivalsLost | src/main.rs:161-184 | if the first k >= 1 guilds are handled before `Ready`, they are lost: the run ends in `Ready` holding only the later guilds, with k panics and no done signal |
| GuildLoading.BufferedRun | src/main.rs:143-190 | corrected handling that holds back the `GuildCreate`s seen before `Ready`: it has a result exactly when some `Ready` has been seen |
| GuildLoading.BufferedLoadCompletes | src/main.rs:143-190 | with held-back arrivals, `Done(sorted guilds)` with one signal and no panic, wherever `Ready` falls among the arrivals |
| GuildLoading.ArrivalOrderIrrelevant | src/main.rs:176 | with distinct guild names, the final state does not depend on the arrival order |
| GuildLoading.TypestateToReady | src/main.rs:121-130 | `GalleryBuildingState<PreReady>::ready`; its behaviour is stated by `TypestateAgreesWithHandleEvent` |
| GuildLoading.TypestateToDone | src/main.rs:133-139 | `GalleryBuildingState<Ready>::done`; its behaviour is stated by `TypestateAgreesWithHandleEvent` |
| GuildLoading.TypestateAgreesWithHandleEvent | src/main.rs:121-140 | typestate `ready` starts from the same empty list as a `Ready` event. `done` carries the arrived list over unchanged, and `handle_event` only reorders that list by name |
| Strings.AsciiUpper | src/main.rs:364 | `to_ascii_uppercase`: a lowercase ASCII letter moves to its uppercase letter; every other character is kept |
| Strings.AsciiLower | src/main.rs:365 | `to_ascii_lowercase`: an uppercase ASCII letter moves to its lowercase letter; every other character is kept |
| Strings.AsciiLowerStr | src/main.rs:365 | `str::to_ascii_lowercase`: the same length, each character lowered |
| Strings.Split | src/main.rs:361 | the pieces of `split('-')`: at least one piece, no separator inside any piece, and joining them back gives the input |
| Strings.SplitAtFirst | src/main.rs:373 | a separator-free head before the first `-` is the first piece, and the rest splits on its own |
| Strings.SplitNoSeparator | src/main.rs:373 | a name without `-` is a single piece |
| Strings.SplitJoinWith | src/main.rs:361-370 | splitting pieces joined with a separator none of them holds gives the pieces back, so `JoinWith` and `Split` are inverses |
| Strings.JoinWith | src/main.rs:370 | `join(sep)` of a nonempty list; no contract of its own: `Split` ends in `JoinWith` giving the input back, and `SplitJoinWith` states the other direction |
| Strings.StartsWith | src/main.rs:193 | `str::starts_with`: the prefix is no longer than the string and equals its first characters; no contract of its own, used by `ImageIffImageContentType` |
| Strings.LessEq | src/main.rs:176 | `String` ordering: compares code points one by one with a proper prefix first, which is the same as comparing the UTF-8 bytes; `LessEqRefl`, `LessEqAntisym`, `LessEqTrans` and `LessEqTotal` make it a total order, the one behind the guild-name sort, the `BTreeMap` key order (src/main.rs:265-276) and the title sort (src/main.rs:327) |
| Strings.Less | src/main.rs:265-276 | the strict `String` order, `LessEq` without equality; the `BTreeMap` of counts keeps its keys strictly ascending in it, which decides the tie-break of `max_by_key` |
| Sorting.Filter | src/main.rs:222-227 | `filter` keeps exactly the matching elements, in order, with their multiplicities |
| Sorting.SortBy | src/main.rs:327 | the result is ordered by key and is a permutation of the input |
| Sorting.SortedPermutationUnique | src/main.rs:176 | two key-sorted permutations of the same distinct-keyed elements are equal |
| Sorting.SortByOrderIndependent | src/main.rs:176 | sorting distinct-keyed elements gives the same list whatever their input order |
| Paths.TrimLeadingSlashes | src/thumbnail_download.rs:17 | the result is a suffix of the input that does not start with `/`, and every removed character was `/` |
| Paths.StripPrefixOfJoin | src/thumbnail_download.rs:19-45 | `root.join(rel).strip_prefix(root)` is `rel` for a relative `rel`, so the `unwrap` cannot fail |
| Paths.Join | src/thumbnail_download.rs:19 | `PathBuf::join`: an absolute `rel` replaces the root, otherwise a separator is put in unless the root is empty or ends in `/`; `Join` has no contract of its own, and `StripPrefixOfJoin` states its round trip |
| Paths.StripPrefix | src/thumbnail_download.rs:45 | a path that does not start with the root has no prefix to strip; `StripPrefixOfJoin` states the round trip |
| Paths.Parent | src/thumbnail_download.rs:31 | `parent()` is `None` exactly for `""` and `/`. Otherwise it is a strict prefix, the rest holds no `/` after it, the next character is the `/` that was cut, and it is `""` exactly for a single relative component |
| Paths.DirChain | src/thumbnail_download.rs:31 | `create_dir_all(dir)` makes `dir` (when nonempty) and otherwise only nonempty prefixes of it that end at a component boundary: `/`, or a prefix that a `/` follows in `dir` |
| Paths.DirChainHasEveryAncestor | src/thumbnail_download.rs:31 | every directory made has its nonempty parent made too, so every ancestor exists |
| ChannelNames.Capitalize | src/main.rs:362-367 | an empty part panics; otherwise the result has the same length, its first char ASCII-uppercased and the rest ASCII-lowercased |
| ChannelNames.JoinWords | src/main.rs:369-370 | `collect::<Vec<String>>().join(" ")`: `""` for no words, otherwise `JoinWith` at a space, which `Strings.SplitJoinWith` shows `Split` undoes |
| ChannelNames.CapitalizeAll | src/main.rs:360-369 | panics exactly when some part is empty; otherwise each part is capitalized in place |
| ChannelNames.ParseAuthorName | src/main.rs:357-385 | the only panic is an empty name part; the lemmas below state the results |
| ChannelNames.UndashedNameKept | src/main.rs:380-382 | a name without `-` is returned unchanged in first-name/last-initial mode, and only capitalized in full-name mode |
| ChannelNames.FirstTwoPartsDecide | src/main.rs:373-379 | with two or more parts, the result is `First L.` from the first two parts alone; an empty first or second part panics |
| ChannelNames.FullNameCapitalizesEachPart | src/main.rs:359-370 | `first-last` becomes `First Last` in full-name mode |
| ChannelNames.NameExamples | src/main.rs:372-382 | `jane-doe`, `JANE-DOE` and `jane-doe-extra` give `Jane D.`; `janedoe` is kept |
| GalleryAssembly.IsAttachmentImage | src/main.rs:192-194 | `is_attachment_image`; stated by `ImageIffImageContentType` |
| GalleryAssembly.HasImage | src/main.rs:267 | `attachments.iter().any(is_attachment_image)`; used by `ImageMessageCounted`, `NoImagesNoCount` and `NoGalleryIffNoImages` |
| GalleryAssembly.ImageAttachments | src/main.rs:290-293 | `attachments.into_iter().filter(is_attachment_image)`: a subsequence of the attachments holding exactly the image attachments, each as often as attached |
| GalleryAssembly.ImageIffImageContentType | src/main.rs:192-194 | an attachment is an image iff its content type is present and begins with `image` |
| GalleryAssembly.EligibleCategories | src/main.rs:222-227 | the offered categories are exactly the category channels that parent at least one text channel, each as often as listed, in channel order |
| GalleryAssembly.CategoryChannels | src/main.rs:251 | the processed channels are exactly the text channels under the chosen category, each as often as listed, in channel order |
| GalleryAssembly.ImageMessageCounted | src/main.rs:266-269 | an image-bearing message counts for its author |
| GalleryAssembly.NoImagesNoCount | src/main.rs:266-274 | without image-bearing messages, every author's count is 0 |
| GalleryAssembly.AttributionUnique | src/main.rs:260-277 | at most one outcome meets the attribution rule |
| GalleryAssembly.Increment | src/main.rs:268 | `entry(name).or_insert(0) += 1` raises exactly that name's count by one and keeps the keys strictly ascending |
| GalleryAssembly.CountEntries | src/main.rs:265-270 | after the counting loop, each author's entry is their number of image-bearing messages (not attachments) |
| GalleryAssembly.LastMaxIndex | src/main.rs:276 | `max_by_key` in key order picks an entry with the greatest count, and every later entry has a smaller count |
| GalleryAssembly.LastMaxIsAttributed | src/main.rs:276-277 | that entry's name has the most image messages, and is the greatest name among those tied |
| GalleryAssembly.EmptyCountsNoImages | src/main.rs:272-274 | empty counts mean no image-bearing message, so no gallery |
| GalleryAssembly.DominantAuthor | src/main.rs:264-278 | the attribution as a function: `None` iff no image-bearing message; otherwise the max-count author, ties going to the greatest name |
| GalleryAssembly.AttributeAuthor | src/main.rs:264-278 | the counting loop and `max_by_key` return the attributed author |
| GalleryAssembly.Description | src/main.rs:284-288 | the description is `None` iff the content is empty, otherwise the content |
| GalleryAssembly.AttachmentPicture | src/main.rs:294-311 | panics iff the URL does not parse. Otherwise: the thumbnail is the URL path without leading `/`s; the save path is `built_websites` joined with it; stripping `built_websites` gives the thumbnail back; the discord URL is the proxy URL |
| GalleryAssembly.PicturesOf | src/main.rs:290-312 | one picture per image attachment, in order; panics iff some URL does not parse |
| GalleryAssembly.MessagePictures | src/main.rs:283-312 | panics iff an image attachment's URL does not parse; otherwise one picture per image attachment of the message, in attachment order |
| GalleryAssembly.ExtractPictures | src/main.rs:280-313 | every extracted picture's download request targets `built_websites/<thumbnail>` from the picture's URL |
| GalleryAssembly.ExtractSingle | src/main.rs:280-313 | one message gives exactly its own pictures |
| GalleryAssembly.ExtractionReversesHistory | src/main.rs:280-283 | extraction reverses message order: `extract(a + b)` is `extract(b)` followed by `extract(a)` |
| GalleryAssembly.GalleryTitle | src/main.rs:315-317 | the only panic is an empty name part; a title always ends in ` (author)` |
| GalleryAssembly.UnnamedChannelTitle | src/main.rs:315-317 | an unnamed channel is titled `No channel name? (author)` |
| GalleryAssembly.NamedChannelTitle | src/main.rs:315-317 | a `first-last…` channel is titled `First L. (author)`; an empty part panics |
| GalleryAssembly.ChannelGallery | src/main.rs:258-324 | a channel's gallery is titled after the attributed author and lists the extracted pictures, oldest first |
| GalleryAssembly.NoGalleryIffNoImages | src/main.rs:260-274 | a channel yields no gallery exactly when none of its messages carries an image, including an empty history |
| GalleryAssembly.CollectGalleries | src/main.rs:257-325 | the channel loop before the sort: at most one gallery per channel, and it succeeds only if every channel's history was fetched |
| GalleryAssembly.PanicPersists | src/main.rs:257-325 | a panic in an early channel is the panic of the whole loop |
| GalleryAssembly.NewGalleryQueued | src/main.rs:301-302 | each picture of a new gallery has its download queued |
| GalleryAssembly.EveryPictureQueued | src/main.rs:257-325 | every picture of every gallery has a queued download of its URL to `built_websites/<thumbnail>` |
| GalleryAssembly.AssembleGalleries | src/main.rs:253-327 | the loop's panic is `CollectGalleries`' panic. Otherwise the galleries are `CollectGalleries`' galleries sorted by title (a sorted permutation), with the same downloads |
| GalleryAssembly.BuildGalleryPage | src/main.rs:221-336 | panics on a guild index out of range, a category index out of range, or an unnamed category. Otherwise the page is titled `<guild> Photo Galleries`, is built from that guild at `PAGE BUILT TIME`, and holds the category's galleries sorted by title |
| ThumbnailDownload.Exists | src/thumbnail_download.rs:21 | `save_path.exists()`: a file or a directory is at the path; no contract of its own, its partners are `DownloadPaths`, `FetchOnlyWhenMissing` and `SecondDownloadSkips` |
| ThumbnailDownload.SavePath | src/thumbnail_download.rs:17-19 | stripping the website root from the save path gives the URL path without its leading `/`s |
| ThumbnailDownload.MakeDirs | src/thumbnail_download.rs:31 | a successful `create_dir_all` adds the directory's chain and changes nothing else; the directory then exists |
| ThumbnailDownload.SaveThumbnail | src/thumbnail_download.rs:33-40 | a save writes the file and prints success; a failed save prints to stderr and is taken to write no file (see "## Left out") |
| ThumbnailDownload.FetchAndSave | src/thumbnail_download.rs:23-40 | panics iff the fetch fails, the path has no parent, or the directory cannot be made; otherwise the directories are made and then the save is attempted |
| ThumbnailDownload.Download | src/thumbnail_download.rs:14-46 | an unparseable URL panics and changes nothing; any success returns the URL path without its leading `/`s |
| ThumbnailDownload.DownloadAt | src/thumbnail_download.rs:21-43 | `download_image` once the save path is known; stated by `DownloadAtOnlyAdds` and `DownloadPaths` |
| ThumbnailDownload.DownloadPaths | src/thumbnail_download.rs:21-43 | an existing save path is skipped with a message and the trimmed path returned. Otherwise `Starting download` is printed and the URL fetched; the call panics iff the fetch fails, the path has no parent or the directory cannot be made, keeping the start line and the fetch; on success the directories are made and the save attempted |
| ThumbnailDownload.DownloadAtOnlyAdds | src/thumbnail_download.rs:21-43 | once the save path is known, nothing is lost and at least one line is printed |
| ThumbnailDownload.FetchAndSaveOnlyAdds | src/thumbnail_download.rs:23-40 | after `Starting download`, the fetch, the directory creation and the save lose no file, directory or printed line, and fetch nothing more |
| ThumbnailDownload.DownloadOnlyAdds | src/thumbnail_download.rs:14-46 | no file, directory, fetch or printed line is lost, and saved thumbnails are never replaced |
| ThumbnailDownload.FetchOnlyWhenMissing | src/thumbnail_download.rs:21-24 | the CDN is asked exactly when the URL parses and nothing exists at the save path |
| ThumbnailDownload.SecondDownloadSkips | src/thumbnail_download.rs:21-43 | after a saved download, the same URL again fetches nothing, writes nothing, and returns the same path |
| ThumbnailDownload.SavedThumbnailInPlace | src/thumbnail_download.rs:21-36 | after a save, the thumbnail from that URL is at the save path, its parent chain exists, and two lines are printed |
| ThumbnailDownload.SavedAfterStart | src/thumbnail_download.rs:23-36 | the same from the point where `Starting download` has been printed: the file, the parent chain and the success line |
| ThumbnailDownload.ThumbnailStore.constructor | src/thumbnail_download.rs:21 | the store starts from the given files and directories, with nothing fetched or printed |
| ThumbnailDownload.ThumbnailStore.DownloadImage | src/thumbnail_download.rs:14-46 | the new files, directories, fetches, printed lines and result are exactly those of `Download` |

## Findings

| source | as written | input that shows it | evidently intended | confidence | as-written member | corrected member |
|---|---|---|---|---|---|---|
| src/main.rs:161-184 | every event is handled in its own spawned task, so a `GuildCreate` task can take the state's mutex before the `Ready` task; it finds `PreReady`, panics, and its guild is dropped (the spawn is at line 59) | `[GuildCreate(a), Ready(3 guilds), GuildCreate(b), GuildCreate(c)]` with `a` handled first: the run ends in `Ready(3, [b, c])` and the done signal is never sent | every announced guild is loaded and the done signal is sent, whatever the order in which the handlers take the mutex | medium, not executed | GuildLoading.EarlyArrivalsLost | GuildLoading.BufferedLoadCompletes |

The class `GatewayState` and the lemmas about `Run` keep the code as written. The corrected handling is `BufferedRun`, which holds back guilds seen before `Ready`.

## Left out

- The gateway connection, shard and event loop, and the done channel's receiver (src/main.rs:23-85) are left out. They are asynchronous I/O. Each `handle_event` call is modelled as one atomic step.
- The gateway model keeps no console output. The "Bot shard is ready" line of `handle_event` (src/main.rs:159) is left out, because no property of the load depends on it.
- GuildLoading.Run handles every event it is given. In the program the event loop stops once it receives the done signal, so events after it may never be handled. Which handler takes the mutex first is scheduling, so a run takes the handling order as its input.
- A failed `done_sender.send(()).await.unwrap()` is not modelled. The send is counted as always succeeding, because the receiver lives in the omitted event loop.
- The console prompts and input parsing (src/main.rs:197-220, 229-244) are left out. The chosen guild and category arrive as indices.
- Listing category names as "No Category Name" only affects console output, and is left out.
- The HTTP history fetch (src/main.rs:258) is a map from channel id to messages. A missing id stands for a failed fetch. The API's 50-message page limit is outside the model.
- The JSON dump to `json_rendered.json` (src/main.rs:338-339) is left out. It is file output of the record that `BuildGalleryPage` returns.
- The `website_save_dir` path (src/main.rs:249) is never used after being built. Only its `unwrap` on the category name is modelled.
- `queue_download` and `flush_download_queue` are not part of this model. Each picture's call is recorded as a `DownloadRequest`, and the queue's execution is left out.
- The image download, decode, 250×250 resize and JPEG encode are left out. They are network, codec and floating-point work. Each is a success flag: `fetchOk` for the fetch and decode, and `saveOk` for the save. A thumbnail file is recorded with the URL it was made from.
- ThumbnailDownload.SaveThumbnail: a failed save is modelled as writing no file. In the program `save_with_format` (src/thumbnail_download.rs:33) creates the file before it encodes, so an encode that fails can leave an empty or partial file at the save path. A later call for the same URL then finds it there (line 21) and skips it, where the model fetches again. The encoder's failure modes are codec work outside the model.
- ThumbnailStore.DownloadImage: a failed `create_dir_all` is modelled as making no directory, though the real call may create some ancestors before failing. That run ends in a panic in any case.
- URL parsing is left out. A URL is its text plus the path `Url::from_str` would yield, or none when the text does not parse.
- Path handling is left out in part. Paths are strings separated by `/`. `Path` component normalisation (`.` components, repeated or trailing separators) is not modelled.
- GalleryAssembly.AssembleGalleries: `sort_unstable_by` may order equal titles either way. The model uses a stable sort, which is one admissible result. The contract states sortedness and permutation, which every admissible result meets.
- The builder's page rendering (src/website_builder/builder.rs) and the website file writes (src/website/mod.rs) are left out. They are thin template and file-system wrappers. Only the record shapes are used.
- The superseded client in src_ser and the browser scripts in website_v3 and website_files are left out. They are client wiring and DOM code.
- Capitalisation is not locale-aware in the source either. Only ASCII letters change case, as with `to_ascii_uppercase` and `to_ascii_lowercase`.
