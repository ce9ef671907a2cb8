# PeerLearn core, modelled in Dafny

PeerLearn is a video-learning platform: students upload lecture videos, comment on them, ask
and answer questions under them, and gather them into playlists. This project models its
server core and proves properties of that model:

- the byte-range video streaming route of `backend/server.js`;
- the Express handlers of the video, comment, question-and-answer, playlist and account routes;
- the five Mongoose schemas: what `save()` validates, the defaults and setters (`trim`,
  `lowercase`), the pre-save password hook and `toJSON`;
- the two one-off repair scripts that give orphaned videos an uploader;
- the display helpers of the video card and the statistics and client-side sort of the home page.

The database is one object (`Store.Db`) whose collections are maps from ObjectId to record;
ids come from one counter, so a larger id is a later insert and ascending id order is natural
order. Handlers that change data are methods on that object. Each states its reply status as a
function of the old state (`UpdateStatus`, `AddStatus`, ...), with both directions of every
"200 exactly when" fact, and states the whole new state. Pure logic (merges, toggles, filters,
parsing, the range answer) is functions with lemmas. Invariants kept by the handlers:

- `Store.Db.Valid`: every id in use is below the counter;
- `CommentRoutes.Linked`: every comment is listed by its video or its parent;
- `QARoutes.Settled`: a resolved question is closed and names an accepted answer it holds;
- `AuthRoutes.UniqueAccounts`: no two accounts share an email or a university id.

Mongoose behaviour the model follows:

- `save()` runs the schema validators, and a failure lands in the handler's `catch` (500).
- `findByIdAndUpdate` validates only with `runValidators`.
- An update path the schema does not declare is dropped under strict mode.
- `$push`/`$pull` on a missing document change nothing.

The JWT middleware is replaced by the user id it decodes.

## Model

| member | source | states |
|---|---|---|
| RangeServer.Extname | backend/server.js:75 | `path.extname`: empty, or a dot followed by no slash, taken from the last path component |
| RangeServer.ContentTypeFor | backend/server.js:75-84 | the type is always one of the table's; an extension missing from the table, after lower-casing, gives `video/mp4` |
| RangeServer.ExtnameOfStemAndExtension | backend/server.js:75 | a slash-free `stem.ext` with a dot-free `ext` has extension `.ext` |
| RangeServer.ContentTypeOfKnownExtension | backend/server.js:75-84 | a known extension is looked up lower-cased (`Lecture.MOV` is `video/quicktime`) |
| RangeServer.DotFileGetsDefaultType | backend/server.js:75-84 | a dot file such as `.mov` has no extension and is served as `video/mp4` |
| RangeServer.ParseRangeHeader | backend/server.js:88-90 | `bytes=S-E` is parsed back to exactly the bounds S and E |
| RangeServer.ParseOpenRangeHeader | backend/server.js:88-90 | `bytes=S-` gives start S and end `fileSize - 1` |
| RangeServer.ParseSuffixRange | backend/server.js:88-89 | `bytes=-N` gives a NaN start |
| RangeServer.StreamedBytes | backend/server.js:92 | inside the file the stream delivers exactly `file[S..E+1]`; past the end it stops at the last byte |
| RangeServer.ServeMissingFile | backend/server.js:66-68 | a missing file gets 404, "Video not found" and no range headers, whatever the range |
| RangeServer.ServeParsedRange | backend/server.js:86-102 | bounds inside the file give 206, Content-Length `E-S+1`, Content-Range `bytes S-E/size` and exactly those bytes |
| RangeServer.ServeRange | backend/server.js:86-102 | the same for a header written `bytes=S-E` |
| RangeServer.ServeWithoutRange | backend/server.js:103-113 | no (or an empty) Range header gives 200, the file size as Content-Length and the whole file |
| RangeServer.ServeSuffixRangeFails | backend/server.js:88-92 | a suffix range reaches `createReadStream` with a NaN start: the request fails |
| RangeServer.HeadIndependentOfRange | backend/server.js:94-109 | every 200 or 206 carries the same Content-Type and `Accept-Ranges: bytes` |
| ClampedRangeServer.ServeOverstatesLengthPastEnd | backend/server.js:90-97 | as written, an end past the file announces `E-S+1` bytes and sends fewer |
| ClampedRangeServer.ClampedLengthMatchesBody | backend/server.js:91-97 | corrected: every 206 announces exactly the bytes it sends, at positions inside the file |
| ClampedRangeServer.ClampedBoundsHonest | backend/server.js:90-97 | corrected: for any parsed bounds a 206 carries a Content-Range inside the file and exactly the bytes it announces |
| ClampedRangeServer.ClampedAgreesInsideFile | backend/server.js:86-102 | the correction answers like the original whenever the end lies inside the file |
| Text.TrimIsIdempotent | backend/models/videoModel.js:8 | a trimmed string has no white space at either end, and trimming again changes nothing |
| Text.TrimStart | backend/models/videoModel.js:8 | only leading white space is dropped, and the rest begins with a non-space |
| Text.TrimEnd | backend/models/videoModel.js:8 | only trailing white space is dropped, and the rest ends with a non-space |
| Text.Utf16Length | backend/models/userModel.js:45 | JavaScript's `length`, which `maxlength` counts: between the number of code points and twice that |
| Text.AstralWithinIndices | backend/models/userModel.js:45 | at most one surrogate pair per code point, and one for each exactly when all code points lie above U+FFFF |
| Text.Utf16LengthExtremes | backend/models/userModel.js:45 | the UTF-16 length equals the code-point count exactly when no code point lies above U+FFFF, and twice it exactly when all do |
| Text.ToLower | backend/models/userModel.js:16 | lower-casing keeps the length and maps each character |
| Text.NatToString | frontend/src/components/Video/VideoCard.js:11 | a number renders as digits with no leading zero |
| Text.NatToStringRoundTrip | frontend/src/components/Video/VideoCard.js:11 | the decimal rendering of a number reads back as that number |
| Text.ParseIntOfNatToString | backend/server.js:89 | `parseInt` reads back a rendered number whatever non-digit text follows |
| Text.JoinSplit | backend/server.js:88 | joining the pieces of `split` gives the string back |
| Text.Split | backend/server.js:88 | `split` gives at least one piece, none containing the separator |
| Text.SplitJoin | backend/server.js:88 | splitting a join of separator-free pieces gives the pieces back |
| Text.FindFirst | backend/server.js:88 | the first occurrence of the pattern, or none anywhere |
| Text.ReplaceFirstAtStart | backend/server.js:88 | `replace(/bytes=/, "")` on a text starting with `bytes=` removes exactly that prefix |
| Lists.IndexOf | backend/routes/videoRoutes.js:228 | the first index holding the value, or -1 exactly when it is absent |
| Lists.RemoveAt | backend/routes/videoRoutes.js:232 | `splice(i, 1)` removes one occurrence: the multiset loses exactly that element |
| Lists.Pull | backend/routes/videoRoutes.js:208-211 | `$pull` leaves no occurrence of the value and keeps every other occurrence (as a multiset) |
| Lists.PullKeepsOthers | backend/routes/comments.js:164-169 | `$pull` removes nothing but the pulled value |
| Lists.PullIsFilter | backend/routes/videoRoutes.js:208-211 | `$pull` is the filter that drops the value, so the remaining elements keep their order |
| Lists.RemoveAtNoDup | backend/routes/videoRoutes.js:230-233 | on a duplicate-free list, the splice removes exactly the element and keeps the rest duplicate-free |
| Lists.AppendNoDup | backend/routes/playlists.js:228-235 | pushing an absent id keeps a list duplicate-free |
| Lists.Filter | frontend/src/pages/Home.js:39-40 | `filter` keeps only elements of the list that pass, and every element that passes |
| Lists.FilterAppend | frontend/src/pages/Home.js:39-40 | `filter` works element by element: on a concatenation it keeps the survivors of the first part, then those of the second, so order is kept |
| Lists.FilterLengthIsPositionCount | frontend/src/pages/Home.js:39-40 | `filter(p).length` is the number of positions whose element passes |
| Likes.Toggle | backend/routes/videoRoutes.js:228-242 | a liker is spliced out and the counter drops, never below zero; anyone else is pushed and counted |
| Likes.ToggleFlipsMembership | backend/routes/videoRoutes.js:228-242 | on a duplicate-free list the toggle flips the user's membership only and keeps a consistent counter consistent |
| Likes.ToggleTwiceRestores | backend/routes/comments.js:193-203 | two presses give back the same likers and counter (the same list for a first-time liker) |
| Likes.UnlikeThenLike | backend/routes/qa.js:200-210 | unliking then liking gives the same likers and counter |
| Likes.LikeThenUnlike | backend/routes/qa.js:200-210 | liking then unliking gives the original state |
| Fields.SplitTagsShape | backend/routes/videoRoutes.js:133 | one tag per comma-separated piece, trimmed, without commas, unchanged by the schema's `trim` |
| Fields.TagsOnUpdate | backend/routes/videoRoutes.js:179 | a falsy `tags` keeps the old tags, a string replaces them, any other truthy value throws |
| Fields.OrElse | backend/routes/videoRoutes.js:174-178 | `incoming \|\| current`: a missing or empty value keeps the current one, any other replaces it |
| Paging.PageCount | backend/routes/videoRoutes.js:76 | `Math.ceil(total / limit)`: the least page count covering the total; null for a zero limit |
| Paging.Window | backend/routes/videoRoutes.js:65-66 | `skip(s).limit(l)`: the items from position s on, as many as `PageSize` (none past the end, all the rest for a zero limit, else at most the limit); a negative skip fails |
| Paging.Paginate | backend/routes/videoRoutes.js:60-77 | a page holds the `PageSize` items at `(page - 1) * limit` onwards, with the full total and the page count; only a negative skip fails |
| Paging.PagesUpToIsPrefix | backend/routes/videoRoutes.js:60-66 | pages 1 to p together are the first `p * limit` items |
| Paging.AllPagesListEveryItemOnce | backend/routes/videoRoutes.js:60-76 | reading pages 1 to `pages` lists every item exactly once, in order |
| Listing.QueryFacts | backend/routes/videoRoutes.js:62-68 | `find(filter).sort(order)` is a reordering of the matching documents read in natural order: every matching document appears, each result is a matching document of the collection, there are as many as `countDocuments` counts, in the requested order |
| Listing.PageFacts | backend/routes/comments.js:30-48 | a page is the `PageSize` documents of the query from position `skip` on: matching documents of the collection, in order, with the matching total and page count; only a negative skip fails |
| Listing.PaginateKeepsOrder | backend/routes/qa.js:33-38 | a page of an ordered list is ordered |
| Sorting.Insert | frontend/src/pages/Home.js:44-49 | inserting adds exactly one element |
| Sorting.InsertKeepsSorted | frontend/src/pages/Home.js:44-49 | inserting into an ordered list keeps it ordered |
| Sorting.SortBy | frontend/src/pages/Home.js:44-49 | the sorted copy is a permutation of the list |
| Sorting.SortByIsSorted | frontend/src/pages/Home.js:44-49 | for a consistent comparator the copy is ordered and a permutation |
| Sorting.SortByAllEqualIsIdentity | frontend/src/pages/Home.js:48 | a comparator that returns 0 throughout leaves the order unchanged |
| Store.Db.constructor | backend/server.js:156-159 | the database the server connects to, empty at the start: no documents, no files, ids from zero |
| Store.Db.FreshId | backend/routes/videoRoutes.js:128-141 | a new ObjectId is used by no document |
| Store.ReplacePlaylist | backend/routes/playlists.js:145-158 | `findByIdAndUpdate` replaces the playlist and nothing else |
| Store.PutUser | backend/routes/authRoutes.js:95-96 | `user.save()` writes that account and nothing else |
| Store.PutVideo | backend/fix-uploader.js:33-35 | `video.save()` writes that video and nothing else |
| Store.StoreComments | backend/routes/comments.js:164-176 | the comment deletion's updates replace the comments and videos, adding no document |
| Store.CountMatches | backend/routes/videoRoutes.js:62-68 | the documents `find` keeps are as many as `countDocuments` counts |
| Store.FirstId | backend/fix-uploader.js:13 | `findOne(filter)`: the first matching document in natural order, none when nothing matches |
| Store.RowsAreDocuments | backend/routes/videoRoutes.js:62 | reading a collection yields each of its documents and nothing else |
| UserModel.NewStudentDefaults | backend/routes/authRoutes.js:41-48 | a new account is an active, unverified student with a lower-cased email and empty lists |
| UserModel.NewStudentValidIff | backend/models/userModel.js:6-51 | a new account validates exactly when the trimmed name (at most 50 UTF-16 units), email, university id and department are acceptable and the password has at least 6 UTF-16 units |
| UserModel.ValidIgnoresSecrets | backend/models/userModel.js:6-51 | the password hash and the last login time play no part in validation |
| UserModel.PreSave | backend/models/userModel.js:95-105 | the password is replaced by its hash exactly when it was modified |
| UserModel.ToJsonStripsOnlySecrets | backend/models/userModel.js:113-118 | `toJSON` drops exactly the password and the verification token: the rest round-trips |
| VideoModel.NewVideoDefaults | backend/routes/videoRoutes.js:128-139 | a new video is unwatched, unliked, public, processing, with pending states and no comments |
| VideoModel.NewVideoValidIff | backend/models/videoModel.js:3-50 | a new video validates exactly when the trimmed title (at most 100 UTF-16 units), the description (at most 2000), URL, topic and subject are acceptable |
| CommentModel.NewCommentDefaults | backend/routes/comments.js:79-84 | a new comment is unliked, unedited, approved, and top-level exactly when no parent was given |
| CommentModel.NewCommentValidIff | backend/models/Comment.js:5-10 | a new comment saves exactly when its trimmed text is 1 to 500 UTF-16 units long |
| PlaylistModel.NewPlaylistDefaults | backend/routes/playlists.js:98-109 | a new playlist belongs to its creator, has no followers and no views |
| PlaylistModel.NewPlaylistValidIff | backend/models/Playlist.js:5-49 | a new playlist saves exactly when title and description (bounds in UTF-16 units), subject, topic and visibility are acceptable |
| QAModel.NewQADefaults | backend/routes/qa.js:79-85 | a new question is open, unresolved, unanswered, unviewed |
| QAModel.NewAnswer | backend/routes/qa.js:124-129 | a new answer has the given text and author, no likes, and is not accepted |
| QAModel.StatusAfterAnswer | backend/routes/qa.js:132 | `open` becomes `answered`; any other status stays; a valid status stays valid and is not `open` |
| QAModel.AnswerIndex | backend/routes/qa.js:164-167 | `findIndex`: the first answer with the id, or -1 exactly when none has it |
| QAModel.Accept | backend/routes/qa.js:169-172 | only that answer becomes accepted; the question names it, is resolved and closed |
| QAModel.AcceptKeepsValid | backend/models/QA.js:5-84 | accepting keeps a valid question valid |
| VideoRoutes.Admit | backend/routes/videoRoutes.js:20-31 | multer accepts exactly the four video types within 500 MiB |
| VideoRoutes.StoredNameRoundTrip | backend/routes/videoRoutes.js:16 | the disk name gives back the upload time and the client's file name |
| VideoRoutes.StoredNamesDiffer | backend/routes/videoRoutes.js:16 | uploads at different milliseconds never share a disk name |
| VideoRoutes.UploadedFileIsServed | backend/routes/videoRoutes.js:135 | the file an upload writes is served whole under the name its `videoUrl` ends in |
| VideoRoutes.PushUploaded | backend/routes/videoRoutes.js:144-147 | `$push` appends the id to that user's uploads only |
| VideoRoutes.PullUploaded | backend/routes/videoRoutes.js:208-211 | `$pull` removes the id from that user's uploads only |
| VideoRoutes.UploadVerdictCases | backend/routes/videoRoutes.js:116-156 | multer rejects first; 400 exactly for a missing file or field; 201 exactly for string tags and a valid record |
| VideoRoutes.UploadRecord | backend/routes/videoRoutes.js:128-139 | a record is stored exactly when the reply is 201, and it is the new video of the request |
| VideoRoutes.Upload | backend/routes/videoRoutes.js:116-156 | the reply, the written file, and on 201 the stored video and the uploader's pushed id; else no document changes |
| VideoRoutes.WriteFile | backend/routes/videoRoutes.js:11-18 | the upload is written under its name, replacing any file of that name |
| VideoRoutes.StoreVideo | backend/routes/videoRoutes.js:141-147 | the video is stored under a fresh id and the id pushed onto the uploader |
| VideoRoutes.Get | backend/routes/videoRoutes.js:85-113 | the view counter goes up by exactly one and the updated record is returned; 404 changes nothing |
| VideoRoutes.EditKeepsTheRest | backend/routes/videoRoutes.js:172-179 | an edit touches no counter, uploader, file or attachment; an empty or missing field keeps its value |
| VideoRoutes.UpdateStatus | backend/routes/videoRoutes.js:159-190 | 404, 500 without uploader, 403 for others; 200 exactly for the uploader with usable tags and a valid merge |
| VideoRoutes.Update | backend/routes/videoRoutes.js:159-190 | on 200 the merged record replaces the stored one; otherwise nothing changes |
| VideoRoutes.Delete | backend/routes/videoRoutes.js:193-217 | only the uploader deletes (200 exactly then); the record is removed and pulled from the requester's uploads |
| VideoRoutes.Like | backend/routes/videoRoutes.js:220-246 | the toggle is saved when the record validates (else 500); the reply carries the new counter and whether it was a like |
| VideoRoutes.LikeSavesValidRecords | backend/routes/videoRoutes.js:234 | a liked record validates exactly when the original did |
| VideoRoutes.AllListed | backend/routes/videoRoutes.js:52-64 | the sorted query: every public, processed video of the subject and topic once, nothing else, newest first |
| VideoRoutes.List | backend/routes/videoRoutes.js:49-82 | the `PageSize` videos of `AllListed` from `(page - 1) * limit` on, each listed, newest first, with the matching total and page count; only a negative skip fails |
| VideoRoutes.PageOfListed | backend/routes/videoRoutes.js:60-77 | the facts of `List` for any page number and limit |
| VideoRoutes.ByUploader | backend/routes/videoRoutes.js:249-262 | every public video of the uploader once, nothing else, newest first |
| CommentRoutes.PushComment | backend/routes/comments.js:90-92 | `$push` appends the id to that video's comments only |
| CommentRoutes.PullComment | backend/routes/comments.js:164-166 | `$pull` removes the id from that video's comments only |
| CommentRoutes.PushReply | backend/routes/comments.js:93-95 | `$push` appends the id to that parent's replies only |
| CommentRoutes.PullReply | backend/routes/comments.js:167-169 | `$pull` removes the id from that parent's replies only |
| CommentRoutes.VideosAfterAdd | backend/routes/comments.js:90-92 | saving a comment adds or removes no video |
| CommentRoutes.CommentsAfterAdd | backend/routes/comments.js:86-95 | saving a comment adds exactly its id to the comments |
| CommentRoutes.AddKeepsLinked | backend/routes/comments.js:86-95 | saving a new comment and attaching it keeps every comment attached |
| CommentRoutes.DeleteRemoves | backend/routes/comments.js:164-176 | the comment and its direct replies are gone; every other comment is unchanged but for the parent's list |
| CommentRoutes.DeleteKeepsLinked | backend/routes/comments.js:164-176 | deleting keeps every remaining comment attached |
| CommentRoutes.AddStatus | backend/routes/comments.js:57-105 | 400 exactly for a missing text or video id, 404 exactly for an unknown video, 201 exactly for a valid comment |
| CommentRoutes.Add | backend/routes/comments.js:57-105 | on 201 the comment is stored under a fresh id and attached; otherwise nothing changes; attachment is kept |
| CommentRoutes.StoreComment | backend/routes/comments.js:86-95 | the save and the push under a fresh id, keeping every comment attached |
| CommentRoutes.Edited | backend/routes/comments.js:132-134 | the text is replaced (trimmed), marked edited at the request time, and nothing else changes |
| CommentRoutes.UpdateStatus | backend/routes/comments.js:108-147 | 400, 404, 403 for anyone but the author; 200 exactly for the author with a valid new text |
| CommentRoutes.Update | backend/routes/comments.js:108-147 | on 200 the edited comment is saved; otherwise nothing changes |
| CommentRoutes.Delete | backend/routes/comments.js:150-182 | only the author deletes (200 exactly then): detach, cascade to direct replies, delete; attachment is kept |
| CommentRoutes.RemoveComment | backend/routes/comments.js:164-176 | the deletion's updates leave the state `CommentsAfterDelete` and `VideosAfterDelete` describe |
| CommentRoutes.LikeSavesValidRecords | backend/routes/comments.js:205 | a liked comment validates exactly when the original did |
| CommentRoutes.Like | backend/routes/comments.js:185-214 | the toggle is saved when the comment validates; the reply carries the new counter and whether it was a like |
| CommentRoutes.AllTopLevel | backend/routes/comments.js:30-38 | the sorted query: every top-level comment of the video once, nothing else, newest first |
| CommentRoutes.List | backend/routes/comments.js:25-54 | the `PageSize` comments of `AllTopLevel` from `(page - 1) * limit` on, each top-level, newest first, with the matching total and page count; only a negative skip fails |
| CommentRoutes.PageOfTopLevel | backend/routes/comments.js:28-48 | the facts of `List` for any page number and limit |
| QARoutes.AnswerIndexSameIds | backend/routes/qa.js:164-167 | answers with the same ids in the same places are searched alike |
| QARoutes.AnswerIndexAppend | backend/routes/qa.js:131 | pushing an answer does not move an answer already found |
| QARoutes.AskStatus | backend/routes/qa.js:57-101 | 400 exactly for a missing question or video id, 404 exactly for an unknown video, 201 exactly for string tags and a valid question |
| QARoutes.Ask | backend/routes/qa.js:57-101 | on 201 the question is stored under a fresh id, settled, and pushed onto the video's `qaSection` |
| QARoutes.StoreQuestion | backend/routes/qa.js:87-91 | the save and the push under a fresh id |
| QARoutes.Answered | backend/routes/qa.js:124-132 | the answer goes last, the status follows `StatusAfterAnswer`, and nothing else changes |
| QARoutes.AnswerKeepsSettled | backend/routes/qa.js:131-132 | answering keeps a question settled, and its answer ids distinct when the new id is new |
| QARoutes.PostAnswer | backend/routes/qa.js:104-145 | 400, 404; 201 exactly for a valid answered question, stored with a fresh answer id; settledness kept |
| QARoutes.AcceptSettles | backend/routes/qa.js:164-172 | accepting an answer found by its id settles the question |
| QARoutes.AcceptAnswer | backend/routes/qa.js:148-185 | 404, 403 for anyone but the asker, 404 for an unknown answer; on 200 accepted and settled |
| QARoutes.LikedAnswer | backend/routes/qa.js:200-210 | a like keeps the number of answers, their ids and acceptance |
| QARoutes.LikeKeepsSettled | backend/routes/qa.js:200-212 | liking an answer keeps a question settled and valid |
| QARoutes.LikeAnswer | backend/routes/qa.js:188-221 | 404 for an unknown question or answer; on 200 the toggle is saved and its counter returned; settledness kept |
| QARoutes.Get | backend/routes/qa.js:224-242 | the view counter goes up by exactly one; 404 changes nothing |
| QARoutes.Update | backend/routes/qa.js:245-280 | 400, 404, 403 for anyone but the asker; 200 exactly when the trimmed question validates, and then it is stored |
| QARoutes.Delete | backend/routes/qa.js:283-304 | only the asker deletes (200 exactly then): pulled from the video's `qaSection` and removed |
| QARoutes.UnresolvedThenNewestIsPreorder | backend/routes/qa.js:36 | `sort({ isResolved: 1, createdAt: -1 })` is a consistent order |
| QARoutes.AllListed | backend/routes/qa.js:27-36 | the sorted query: every question of the video and status (default `open`) once, nothing else, unresolved then newest first |
| QARoutes.List | backend/routes/qa.js:25-54 | the `PageSize` questions of `AllListed` from `(page - 1) * limit` on, each listed, unresolved then newest first, with total and page count; only a negative skip fails |
| QARoutes.PageOfListed | backend/routes/qa.js:28-48 | the facts of `List` for any page number and limit |
| QARoutes.UnresolvedComeFirst | backend/routes/qa.js:36 | in a page no resolved question precedes an unresolved one |
| PlaylistRoutes.Given | backend/routes/playlists.js:145-158 | a key not sent leaves the field; a sent value replaces it |
| PlaylistRoutes.PushToPath | backend/routes/playlists.js:115-118 | a `$push` on a path the user schema lacks changes nothing; on `playlists` it appends |
| PlaylistRoutes.PullFromPath | backend/routes/playlists.js:188-191 | a `$pull` on a path the user schema lacks changes nothing; on `playlists` it removes |
| PlaylistRoutes.PushOnUser | backend/routes/playlists.js:115-118 | the push touches only the creator |
| PlaylistRoutes.PullOnUser | backend/routes/playlists.js:188-191 | the pull touches only the creator |
| PlaylistRoutes.CreatedListIsNotRecorded | backend/routes/playlists.js:115-118 | as written, creating or deleting a playlist changes no user: the creator never lists it |
| PlaylistRoutes.PlaylistsPathIsRecorded | backend/models/userModel.js:58-63 | with the schema's `playlists` path the creator lists a new playlist, and deleting it restores the list |
| PlaylistRoutes.PullAppendAbsent | backend/routes/playlists.js:188-191 | pulling an id pushed onto a list that lacked it gives the list back |
| PlaylistRoutes.Get | backend/routes/playlists.js:57-82 | 404, or the playlist as read while the stored view count goes up by one |
| PlaylistRoutes.CreateStatus | backend/routes/playlists.js:85-127 | 400 exactly for a missing title, subject or topic; 201 exactly for string tags and a valid playlist |
| PlaylistRoutes.CreateWith | backend/routes/playlists.js:85-127 | on 201 the playlist is stored under a fresh id and pushed on the creator's given path |
| PlaylistRoutes.StorePlaylist | backend/routes/playlists.js:111-118 | the save and the push under a fresh id |
| PlaylistRoutes.Create | backend/routes/playlists.js:85-127 | as written: the playlist is stored on 201, and no user changes |
| PlaylistRoutes.CreateRecorded | backend/routes/playlists.js:85-127 | corrected: on 201 the creator's `playlists` lists the new id |
| PlaylistRoutes.EditKeepsTheRest | backend/routes/playlists.js:145-158 | an update keeps creator, followers, view count and unsent fields, and stores unvalidated values such as an empty title |
| PlaylistRoutes.Edit | backend/routes/playlists.js:145-158 | the update fails exactly for truthy non-string tags |
| PlaylistRoutes.UpdateStatus | backend/routes/playlists.js:130-169 | 404, 403 for anyone but the creator, 500 for truthy non-string tags, else 200 |
| PlaylistRoutes.Update | backend/routes/playlists.js:130-169 | on 200 the merged record is stored without validation; otherwise nothing changes |
| PlaylistRoutes.Delete | backend/routes/playlists.js:172-197 | only the creator deletes (200 exactly then); no user changes |
| PlaylistRoutes.AddVideo | backend/routes/playlists.js:200-246 | 400, 404, 403, 404 for an unknown video, 400 for a listed one; else appended; no duplicate introduced |
| PlaylistRoutes.RemoveVideo | backend/routes/playlists.js:249-276 | only the creator removes (200 exactly then); no occurrence of the video remains |
| PlaylistRoutes.Followed | backend/routes/playlists.js:287-301 | a follower is pulled and is no longer listed; anyone else is pushed and listed |
| PlaylistRoutes.FollowTwice | backend/routes/playlists.js:287-301 | two presses restore the followers (for a single-listed follower, up to order) |
| PlaylistRoutes.Follow | backend/routes/playlists.js:279-307 | 404, or the toggle stored and a reply saying whether the user now follows |
| PlaylistRoutes.List | backend/routes/playlists.js:26-54 | every playlist of the subject, creator and curation asked for once, nothing else, newest first |
| PlaylistRoutes.ListedQuery | backend/routes/playlists.js:26-54 | the facts of `List` about the query it runs |
| PlaylistRoutes.ByCreator | backend/routes/playlists.js:310-321 | every playlist of the creator once, nothing else, newest first |
| PlaylistRoutes.Curated | backend/routes/playlists.js:324-335 | every curated playlist once, nothing else, newest first |
| AuthRoutes.SameKeysKeepUnique | backend/models/userModel.js:12-33 | changing an account without touching its email or university id keeps accounts unique |
| AuthRoutes.Registered | backend/routes/authRoutes.js:41-50 | the stored account is a student with the lower-cased email and the hashed password |
| AuthRoutes.RegisterStatus | backend/routes/authRoutes.js:16-64 | 400 exactly for a failed validator or a taken email or university id; 201 exactly when the new record also validates |
| AuthRoutes.RegisterKeepsUnique | backend/routes/authRoutes.js:35-50 | a successful registration keeps accounts unique |
| AuthRoutes.Register | backend/routes/authRoutes.js:16-64 | on 201 the hashed account is stored and its public fields returned; else nothing changes; uniqueness kept |
| AuthRoutes.LoginTarget | backend/routes/authRoutes.js:83 | the first account with the lower-cased email, none exactly when no account has it |
| AuthRoutes.LoginStatus | backend/routes/authRoutes.js:67-110 | one 400 for a bad input, an unknown email and a wrong password; 200 exactly when the password matches and the save validates |
| AuthRoutes.Login | backend/routes/authRoutes.js:67-110 | on 200 only `lastLogin` changes and the public fields are returned; else nothing changes |
| AuthRoutes.RegisteredCanLogIn | backend/routes/authRoutes.js:41-96 | whoever registers can log in with the same email and password, and finds their own account |
| AuthRoutes.LoginFindsOnlyNewAccount | backend/routes/authRoutes.js:83 | `findOne({ email })` after a registration with a fresh email finds the new account |
| AuthRoutes.Profile | backend/routes/authRoutes.js:137-162 | 200 exactly for a known account, with its public fields and no secrets; else 404 |
| AuthRoutes.ProfileAppliedKeepsValid | backend/routes/authRoutes.js:190-196 | an accepted update keeps the account valid and never changes email, university id, password, role or lists |
| AuthRoutes.UpdateProfileStatus | backend/routes/authRoutes.js:165-206 | 400 exactly for a failed validator (lengths in code points), 403 exactly for another user's token, 200 exactly for an update of an existing account that passes the schema (lengths in UTF-16 units) |
| AuthRoutes.AstralBioFailsOnlyInSchema | backend/routes/authRoutes.js:169 | a bio of 251 to 500 code points above U+FFFF passes the 500-character validator but not the schema's 500-unit `maxlength`, so the update answers 500 |
| AuthRoutes.UpdateProfile | backend/routes/authRoutes.js:165-206 | on 200 the sent fields replace the stored ones and the public fields are returned; uniqueness kept |
| Repair.WithOwner | backend/fix-uploader.js:33-34 | the owner becomes the uploader and processing stops |
| Repair.PushAbsent | backend/fix-uploader.js:38-41 | the id is listed afterwards, the list only grows, and stays duplicate-free |
| Repair.PushAllAbsent | backend/fix-all-videos.js:40-42 | every pushed id is listed, the old list is a prefix, and no duplicate is introduced |
| Repair.PushAllPresent | backend/fix-all-videos.js:40-42 | pushing ids already listed changes nothing |
| FixAllVideos.DefaultUser | backend/fix-all-videos.js:25 | `users[0]`: the first user in natural order, none exactly when there are no users |
| FixAllVideos.OrphansBelowMembers | backend/fix-all-videos.js:30-31 | the loop visits exactly the videos needing an owner, each once |
| FixAllVideos.RepairedBelowAt | backend/fix-all-videos.js:30-37 | each visited video needing an owner gets it; any other is unchanged |
| FixAllVideos.OrphansCount | backend/fix-all-videos.js:44 | the counter is the number of videos needing an owner |
| FixAllVideos.RepairedHasNoOrphans | backend/fix-all-videos.js:30-47 | afterwards no video needs an owner, others are untouched, and a second run changes nothing |
| FixAllVideos.OwnerListsRepaired | backend/fix-all-videos.js:39-42 | the owner's list keeps its order, gains every repaired video and no duplicate |
| FixAllVideos.ExitCode | backend/fix-all-videos.js:20-23 | 1 without users, or when the owner fails validation on save; 0 otherwise |
| FixAllVideos.UsersAfter | backend/fix-all-videos.js:49-51 | only the owner changes, and only when videos were fixed and the save validates |
| FixAllVideos.RepairVideos | backend/fix-all-videos.js:29-47 | the loop leaves the repaired videos, the count and the owner's list as the functions say |
| FixAllVideos.Run | backend/fix-all-videos.js:13-56 | the exit code, the users and the videos after the script |
| FixUploader.Target | backend/fix-uploader.js:13 | the first video without uploader, none exactly when every video has one |
| FixUploader.ChosenUser | backend/fix-uploader.js:23 | a user whose email mentions "faisal" when one exists, else the first user; none exactly without users |
| FixUploader.After | backend/fix-uploader.js:13-47 | exit 0 with nothing to fix, 1 without users; on success the video has the user and the user lists it |
| FixUploader.SecondRunFindsNothing | backend/fix-uploader.js:13-18 | after a clean run with one orphan, a second run finds nothing and changes nothing |
| FixUploader.Run | backend/fix-uploader.js:13-47 | the store and exit code after the script are those of `After` |
| VideoCard.SecondsText | frontend/src/components/Video/VideoCard.js:11 | seconds are always two digits with their value |
| VideoCard.FormatDuration | frontend/src/components/Video/VideoCard.js:8-12 | the label ends in a colon and two digits |
| VideoCard.FormatDurationRoundTrip | frontend/src/components/Video/VideoCard.js:8-12 | reading the `m:ss` label back gives the seconds |
| VideoCard.FormatDurationInjective | frontend/src/components/Video/VideoCard.js:8-12 | different durations never share a label |
| VideoCard.FormatNumber | frontend/src/components/Video/VideoCard.js:14-19 | the number is shown as is exactly below 1000 |
| VideoCard.Initial | frontend/src/components/Video/VideoCard.js:116 | the upper-cased first letter of the name, or "U" |
| VideoCard.DisplayName | frontend/src/components/Video/VideoCard.js:118 | the name, or "Unknown User"; never empty |
| VideoCard.InitialMatchesDisplayName | frontend/src/components/Video/VideoCard.js:116-118 | the avatar letter is the first letter of the name shown beside it |
| VideoCard.VideoLink | frontend/src/components/Video/VideoCard.js:88 | `/video/` followed by `_id` when non-empty, else `id` |
| Home.VideosOf | frontend/src/pages/Home.js:36 | the reply's videos, or none while loading or when absent |
| Home.Total | frontend/src/pages/Home.js:38 | the server's total, or 0 |
| Home.StatsCountTheirVideos | frontend/src/pages/Home.js:39-40 | trending and recent count the listed videos over 200 views or from the last week, never more than the list |
| Home.FailedReplyShowsZero | frontend/src/pages/Home.js:29-32 | a failed request shows zero for every statistic |
| Home.InFrontIsPreorder | frontend/src/pages/Home.js:44-49 | every sort key gives a consistent comparator |
| Home.SortedVideosOrder | frontend/src/pages/Home.js:44-49 | the sorted copy holds the same videos, most viewed, most liked or newest first |
| Home.UnknownKeyKeepsOrder | frontend/src/pages/Home.js:48 | any other key keeps the server's order |

## Left out

- Authentication: JWT signing and verification and the 401 replies of `verifyToken` are not modelled; handlers receive the decoded user id. GET /api/auth/me is GET /:userId (`AuthRoutes.Profile`) for the decoded id.
- GET /api/auth/list/all is not modelled: it is an unsorted `find` capped at 100 documents, with no state change.
- bcrypt: `hash` and `compare` are function parameters; the random salt is not modelled.
- express-validator's `isEmail` is a parameter. The other validators (`notEmpty`, `isLength`, `matches`) are modelled.
- Search: the `$text` search of GET /api/videos and the `$regex` filters (`topic`, `search`) of GET /api/playlists need MongoDB's text index and regular-expression engine. `VideoRoutes.List` and `PlaylistRoutes.List` model the query without them.
- `populate`: replies carry ids, not populated documents. The one place where `populate` changes behaviour (a dangling uploader reads as null in backend/fix-all-videos.js) is modelled by `FixAllVideos.NeedsOwner`.
- `timestamps`: `updatedAt` is not modelled; `createdAt` and `Date.now()` are parameters.
- Query strings are integers or absent. A non-numeric `page` or `limit` (NaN arithmetic) is not modelled.
- ObjectId casts are not modelled: an id that is not a valid ObjectId would make Mongoose throw (500).
- Concurrency: interleaved read-modify-write requests (the like toggles, the counters) are not modelled; each handler runs alone.
- multer rejections reach the application's error middleware, which is not part of this model: `VideoRoutes.UploadReply` records the rejection without its reply.
- Console output, the database connection and `process.exit` are not modelled; exit codes are results.
- The chatbot route and the React pages other than the video card and the home page are not part of this model.
- VideoCard.FormatNumber: the digits of `(num / 1000).toFixed(1) + 'K'` are not modelled, because floating-point formatting is out of scope; the result only records which form is shown.
- VideoCard.FormatDuration: only natural numbers of seconds are modelled; a fractional or negative duration would give a fractional or negative label.
- Home.Recent: `createdAt` is compared as a number of milliseconds; date parsing is not modelled.
- RangeServer.Serve: the read stream's I/O errors after the head is written are not modelled.
- Text.ToLower: only ASCII letters are case-folded; JavaScript's Unicode case mapping is not modelled.
- Text.UpperChar: only ASCII letters are upper-cased; JavaScript's `toUpperCase` maps other letters too, and some to two characters ('ß' to "SS").
- VideoCard.Initial: the first code point is upper-cased ASCII-only; `charAt(0)` of a name starting above U+FFFF returns half a surrogate pair, which is not modelled.
- AuthRoutes.EditPassesValidators: express-validator's `isLength` is modelled as a count of code points (a surrogate pair counts once); newer validator versions also leave U+FE0E and U+FE0F out of the count, which is not modelled.
- Mongoose 6 or later is assumed: a key that is `undefined` in an update document is stripped rather than unset, so a field not sent keeps its value (`PlaylistRoutes.Given`, `PlaylistRoutes.Edited`, `AuthRoutes.ProfileApplied`).
- Sort ties: MongoDB does not promise any order among documents with equal sort keys; the model breaks ties by natural (insertion) order, so a result with ties is one of the orders the database may return.

## Findings

| source | as written | input that shows it | evidently intended | confidence | as-written member | corrected member |
|---|---|---|---|---|---|---|
| backend/server.js:90-97 | Content-Length is `end - start + 1` for the requested end, even past the file's last byte; the read stream stops at the end of the file | `Range: bytes=5-20` on a ten-byte file: Content-Length 16, 5 bytes sent | clamp the end to `fileSize - 1` (section 2.1 of RFC 7233) and answer 416 for a start past the end (section 4.4) | not executed; high | ClampedRangeServer.ServeOverstatesLengthPastEnd | ClampedRangeServer.ClampedLengthMatchesBody |
| backend/routes/playlists.js:115-118 | the new playlist's id is pushed onto `createdPlaylists`, which the user schema does not declare, so strict mode drops the update; the pull at lines 188-191 is dropped the same way | any successful POST /api/playlists: the creator's `playlists` is unchanged | push onto and pull from the schema's `playlists` path | not executed; medium | PlaylistRoutes.CreatedListIsNotRecorded | PlaylistRoutes.CreateRecorded |
