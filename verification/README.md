# YouTwit-Backend: referential integrity and relationships

This project models the controller logic of the YouTwit video-and-tweet backend
that keeps its seven collections consistent with each other. The collections are
users, videos, comments, tweets, likes, playlists and subscriptions.

The document store is an immutable record of seven sequences (`Entities.Store`).
Each handler is a pure function from a store and its request parameters to a
`Reply`. A `Reply` holds the handler's `Result` (a value, or the HTTP status of
the error) and the store it leaves behind. Mongoose operations are given their
plain-data meaning over sequences:

- `deleteMany` is `Seqs.Filter`.
- `countDocuments` is `Seqs.Count`.
- `findOne` and `findById` are `Seqs.First`.
- `findOneAndDelete` is `Seqs.RemoveFirst`.
- `$addToSet` is `Seqs.AddToSet`.
- `$pull` is `Seqs.Pull`.
- `$inc` and by-id updates are `Seqs.Update` over every record with that id.

The store enforces no uniqueness beyond what the code checks. So the model
allows duplicate likes, duplicate subscriptions and repeated ids, and every
property below holds without assuming they are absent.

A `Like` keeps the three optional target fields `video`, `comment` and `tweet`,
as the code does. "A toggle creates a like with exactly one target" is therefore
a proved property (`Likes.TogglePreservesSingleTarget`), not a fact of the type.

Modules follow the controllers:

| module | covers |
|---|---|
| `Base` | results, status codes, the object-id shape |
| `Seqs` | the sequence operations |
| `Entities` | records, the store, lookups by id |
| `Cloudinary` | public-id extraction, the destroy and upload guards |
| `Likes` | the like controller |
| `Subscriptions` | the subscription controller |
| `Videos` | the video controller |
| `Playlists` | the playlist controller |
| `Comments` | the comment controller |
| `Tweets` | the tweet controller |
| `Dashboard` | the dashboard controller |
| `Users` | the user controller's profile, watch-history and details views |
| `UserRemoval` | `removeUser` and its four helpers |

Ids. A request id is a string. `isValidObjectId` accepts 24 hexadecimal digits
in either case. Every store query and every created record casts the id to an
ObjectId, and an ObjectId prints in lower case, so the model compares and stores
`Base.Canon(id)`, the id with its hex digits lowered. The caller's id and the
stored ids are already in that form. A guard that compares the raw request
string with `toString()` of an id is modelled as that raw comparison.

Cast errors. A malformed id that reaches a store call fails the cast. Inside a
`try`, the `catch` decides the status. Outside one, the request fails with 500.
The model answers each of these cases:

- `toggleVideoLike`: 500 (the 400 is caught).
- `getSubscribedChannels`: 404.
- `getUserPlaylists` and `getPlaylistById`: 500.
- The four playlist edits with a malformed playlist id: 500 (the owner lookup sits outside the `try`).
- `addVideoToPlaylist` and `removeVideoFromPlaylist` with a malformed video id: 500, with nothing changed.
- `addToWatchHistory` with a malformed video id: 500, with nothing changed.
- `deleteTweet`: 500.

Other behaviour of the code that the model keeps:

- A second `deleteVideo` of the same id answers 404.
- Toggles have no duplicate-key recovery, and no uniqueness index exists.
- `addToWatchHistory` pushes: the history may hold duplicates, and nothing is moved to the front.
- The watch-history view lists videos in the order of the video collection.
- `removeUser` deletes videos through its own helper. That helper pulls nothing from playlists or watch histories.
- `removeUser` deletes every video listed in the user's playlists, whoever owns it.
- `updatePlaylist` and `updateComment` set only the fields the request carries: Mongoose drops an undefined `$set` key, so a missing name, description or content keeps its value.
- Several checks sit inside a `try` whose `catch` rethrows 500. Each of these answers 500 in the model:
  - `toggleVideoLike`'s id check;
  - `getVideoComments`' 400 and 404;
  - `getPlaylistById`'s 404;
  - `deleteTweet`'s 404 and 403;
  - `createTweet`'s 400;
  - `addToWatchHistory`'s 404.

## Model

| member | source | states |
|---|---|---|
| Base.BlankIsNotValid | src/controllers/video.js:115-121 | A blank id never has the object-id shape, so the blank check before the shape check changes no answer |
| Base.CanonOfValid | src/controllers/subscription.js:22-25 | The cast of a well-formed id is well-formed, lower-case, and unchanged by a second cast |
| Base.SameObjectId | src/controllers/subscription.js:17-25 | Two well-formed ids name the same ObjectId iff they agree digit by digit up to case |
| Cloudinary.LastSegment | src/utils/cloudinary.js:36 | `split("/").pop()`: the result has no '/', is a suffix of the URL, and is preceded by '/' unless it is the whole URL |
| Cloudinary.LastSegmentUnique | src/utils/cloudinary.js:36 | Those three properties single out the last segment: any string with them equals it |
| Cloudinary.BeforeFirstDot | src/utils/cloudinary.js:36 | `split(".")[0]`: the result has no '.', is a prefix of the segment, and is followed by '.' unless it is the whole segment |
| Cloudinary.BeforeFirstDotUnique | src/utils/cloudinary.js:36 | Those properties single out the text before the first dot |
| Cloudinary.PublicId | src/utils/cloudinary.js:36 | The public id contains neither '/' nor '.' and is a prefix of the URL's last segment |
| Cloudinary.PublicIdOfAssetUrl | src/utils/cloudinary.js:36 | A URL `<base>/<id>.<ext>` whose id has no '/' or '.' yields exactly `id` |
| Cloudinary.PublicIdWithoutExtension | src/utils/cloudinary.js:36 | A URL `<base>/<id>` whose id has no '/' or '.' yields exactly `id` |
| Cloudinary.ResourceType | src/utils/cloudinary.js:39 | The resource type is "video" iff the asset is a video, and "image" otherwise |
| Cloudinary.DeleteFile | src/utils/cloudinary.js:31-42 | An absent or empty URL requests nothing; otherwise one destroy of the URL's public id with the chosen resource type |
| Cloudinary.Upload | src/utils/cloudinary.js:10-29 | With no local path the answer is null and nothing is sent; otherwise the path is sent once and the service's answer (null on failure) is returned |
| Likes.NewLike | src/controllers/like.js:29-34 | A created like matches the toggle's filter, carries the given liker, and has exactly one target field set |
| Likes.Toggle | src/controllers/like.js:18-34 | With a matching like, exactly one is removed and the answer is "unliked"; without one, one new like is appended and the answer is "liked"; likes outside the filter and all other collections are unchanged |
| Likes.ToggleVideoLike | src/controllers/like.js:7-40 | A malformed id answers 500 (the 400 is caught) with the store unchanged. Otherwise it is the toggle on the cast id: unlike removes one of the caller's likes on that video and keeps every other like in order; like appends `{video, likedBy}` with no other target |
| Likes.ToggleCommentLike | src/controllers/like.js:42-71 | A malformed id answers 400 with the store unchanged; otherwise the same toggle on the cast id in the `comment` field, with the same frame |
| Likes.ToggleTweetLike | src/controllers/like.js:73-103 | A malformed id answers 400 with the store unchanged; otherwise the same toggle on the cast id in the `tweet` field, with the same frame |
| Likes.ToggleTwiceRestores | src/controllers/like.js:18-34 | Starting with no match, like then unlike answers "liked" then "unliked" and restores the original store |
| Likes.ToggleCreatesOne | src/controllers/like.js:29-34 | Starting with no match, one toggle leaves exactly one matching like |
| Likes.TogglePreservesSingleTarget | src/controllers/like.js:30 | If every like has exactly one target before a toggle, every like has exactly one after it |
| Likes.ToggleLeavesOtherFilters | src/controllers/like.js:18-21 | When every like has one target, a toggle leaves unchanged the likes of every other (kind, target, liker) triple |
| Likes.LikedBy | src/controllers/like.js:107-129 | The answer holds exactly the caller's likes whose target of the given kind resolves; it is a 404 exactly when there are none |
| Likes.GetUserLikedVideos | src/controllers/like.js:105-144 | 404 iff none of the caller's likes is on an existing video; otherwise exactly the caller's likes on existing videos, both directions |
| Likes.GetUserLikedTweets | src/controllers/like.js:146-182 | The same for tweets: exactly the caller's likes on existing tweets, 404 iff there are none |
| Likes.GetUserLikedComments | src/controllers/like.js:184-221 | The same for comments: exactly the caller's likes on existing comments, 404 iff there are none |
| Likes.LikedVideoIsListed | src/controllers/like.js:29-34 | Liking an existing video puts the new like among the caller's liked videos |
| Subscriptions.ToggleSubscription | src/controllers/subscription.js:8-63 | Corrected: a malformed id answers 404; the caller's own channel in any spelling answers 403, both with nothing changed; otherwise the toggle on the cast id |
| Subscriptions.ToggleOn | src/controllers/subscription.js:21-57 | Unsubscribe removes exactly one match; subscribe appends exactly `(me, channel)`; other subscriptions and collections are unchanged |
| Subscriptions.ToggleSubscriptionAsWritten | src/controllers/subscription.js:8-63 | As written: the 403 guard compares the raw request id with the caller's id, while the toggle runs on the cast id |
| Subscriptions.SelfSubscriptionAsWritten | src/controllers/subscription.js:17-48 | The caller `aaa…a` asking for `AAA…A` is answered "subscribed" and a subscription naming the caller on both sides is stored |
| Subscriptions.ToggleKeepsNoSelfSubscription | src/controllers/subscription.js:17-19 | With the corrected guard, if no subscription names the same user on both sides, none does after a toggle |
| Subscriptions.ToggleSubscriptionTwice | src/controllers/subscription.js:22-57 | Starting unsubscribed, subscribe then unsubscribe restores the original store |
| Subscriptions.SubscriberIds | src/controllers/subscription.js:79-88 | One subscriber per subscription to the channel: every subscriber listed comes from one, and every such subscription's subscriber is listed |
| Subscriptions.ChannelIds | src/controllers/subscription.js:107-115 | One channel per subscription by the user: every channel listed comes from one, and every such subscription's channel is listed |
| Subscriptions.Populate | src/controllers/subscription.js:79-88 | Each id becomes the user it names, or nothing when that user is gone; the length is kept |
| Subscriptions.GetUserChannelSubscribers | src/controllers/subscription.js:66-99 | 400 for a malformed id and 403 for another user's channel; otherwise one populated entry per subscription to the channel, in store order |
| Subscriptions.GetSubscribedChannels | src/controllers/subscription.js:102-127 | A malformed id answers 404; otherwise one populated entry per subscription by the cast id, in store order, each the channel of such a subscription |
| Subscriptions.SubscribeAppendsSubscriber | src/controllers/subscription.js:43-57 | A new subscription appends the caller to the end of the channel's subscriber list |
| Subscriptions.SubscribeAppendsChannel | src/controllers/subscription.js:43-57 | A new subscription appends the channel to the end of the caller's channel list |
| Videos.Cascade | src/controllers/video.js:240-267 | Afterwards: the video record is gone; the comments on it are gone; exactly the likes unrelated to it and its comments stay; every playlist and history has the id pulled, with the rest kept in order; tweets and subscriptions are untouched |
| Videos.CascadeLikes | src/controllers/video.js:240-248 | The likes left are exactly those on neither the video nor one of its comments |
| Videos.PullEverywhere | src/controllers/video.js:251-261 | `updateMany` with a `$pull` filtered on membership equals a `$pull` on every element |
| Videos.MediaRequests | src/controllers/video.js:262-265 | The video file is destroyed as a video and the thumbnail as an image, each only when its URL is non-empty |
| Videos.DeleteVideo | src/controllers/video.js:220-274 | 400 for a blank or malformed id, 404 for an absent video, 403 for a non-owner, each with the store unchanged; otherwise the cascade runs and the media are destroyed |
| Videos.CascadeLeavesNoReference | src/controllers/video.js:240-267 | After the cascade, no video has the id; no comment is on it; no like targets it or one of its comments; no playlist or watch history lists it |
| Videos.DeleteVideoTwice | src/controllers/video.js:228-231 | A second deletion of the same id answers 404 and changes nothing |
| Videos.CascadeKeepsLikeTargets | src/controllers/video.js:240-248 | If every like's target exists before the cascade, every remaining like's target exists after it |
| Videos.CascadeKeepsCommentVideos | src/controllers/video.js:246-248 | If every comment's video exists before, every remaining comment's video exists after |
| Videos.CascadeKeepsPlaylistVideos | src/controllers/video.js:251-255 | If every playlist entry names an existing video before, every remaining entry does after |
| Videos.CascadeKeepsHistoryVideos | src/controllers/video.js:257-261 | If every watch-history entry names an existing video before, every remaining entry does after |
| Videos.CascadeKeepsNoDangling | src/controllers/video.js:240-267 | The public deletion keeps a store free of dangling references to content |
| Videos.Republished | src/controllers/video.js:303-306 | The save negates `isPublished` of the records with the id and changes nothing else |
| Videos.RepublishedTwice | src/controllers/video.js:303-306 | Negating twice restores the store; the record found after one negation is the negated original |
| Videos.TogglePublishStatus | src/controllers/video.js:276-311 | 400 for a malformed id; 403 for an absent video or a non-owner; otherwise the answer is the video with `isPublished` negated, and only that flag changes |
| Videos.TogglePublishTwice | src/controllers/video.js:303-306 | Two toggles restore the store, and the second answers the original video |
| Videos.RecordView | src/controllers/video.js:137-151 | The id joins the caller's history only if absent, the video's views go up by one, and nothing else changes |
| Videos.GetVideoById | src/controllers/video.js:112-165 | 400 for a blank or malformed id and 404 for an absent video, with the store unchanged; otherwise the video with the counts of likes and comments on it, and the view recorded |
| Videos.WatchTwice | src/controllers/video.js:137-151 | Fetching a video twice leaves the watch histories as one fetch did, while the views have gone up by two |
| Videos.RecordViewTwice | src/controllers/video.js:137-151 | Recording a view twice adds to the histories once and to the views twice |
| Videos.NewLikeIsCounted | src/controllers/video.js:123 | One more like on the video raises the like count a fetch reports by one |
| Videos.UpdateVideoViews | src/controllers/video.js:313-342 | 400 for a malformed id and 404 for an absent video, with nothing changed; otherwise each record with the id has views up by exactly one, and nothing else changes |
| Videos.SortOptions | src/controllers/video.js:17-23 | No sort field means `createdAt`, descending; otherwise the given field, descending iff the sort type is "desc" |
| Videos.Candidates | src/controllers/video.js:34-36 | A known caller sees only their own videos; otherwise all videos |
| Videos.Listing | src/controllers/video.js:41-51 | Each entry is the video with its likers and its owner, in the order given |
| Videos.ListingVideos | src/controllers/video.js:41-51 | The videos of a listing are exactly the videos it was built from |
| Videos.AscendingBySpec | src/controllers/video.js:17-23 | Ascending rank means ordered by the chosen field in the chosen direction |
| Videos.GetAllVideos | src/controllers/video.js:13-62 | The entries are a permutation of the candidate videos, ordered by the sort options, each with its likers and owner; with a known caller, all are the caller's |
| Playlists.View | src/controllers/playlist.js:67-70 | A playlist with `videos` populated: the listed videos that still exist |
| Playlists.CreatePlaylist | src/controllers/playlist.js:7-30 | Always appends one empty playlist owned by the caller, with the given name and description, and answers it |
| Playlists.GetUserPlaylists | src/controllers/playlist.js:32-58 | A malformed id answers 500; otherwise exactly the playlists the cast id owns (one entry per such record), each with its resolved videos |
| Playlists.GetPlaylistById | src/controllers/playlist.js:60-84 | A malformed id or an absent playlist answers 500 (both errors are caught); otherwise the playlist with the cast id and its resolved videos |
| Playlists.EditRefusal | src/controllers/playlist.js:86-108 | A malformed id answers 500 (the owner lookup sits outside the `try`), an absent playlist 404, a non-owner 403, and no refusal exactly for the owner |
| Playlists.EditPlaylist | src/controllers/playlist.js:111-117 | `findByIdAndUpdate` changes only the records with the id and answers the updated playlist |
| Playlists.AddVideoToPlaylist | src/controllers/playlist.js:86-137 | Refusals and a malformed video id (500) leave the store unchanged; otherwise the cast video id is appended to that playlist only if absent, and nothing else changes |
| Playlists.RemoveVideoFromPlaylist | src/controllers/playlist.js:139-187 | Refusals and a malformed video id (500) leave the store unchanged; otherwise every occurrence of the cast video id leaves that playlist, and nothing else changes |
| Playlists.UpdatePlaylist | src/controllers/playlist.js:227-272 | Refusals leave the store unchanged; otherwise that playlist takes each of name and description the request carries and keeps the other; owner and videos stay |
| Playlists.DeletePlaylist | src/controllers/playlist.js:189-225 | Refusals leave the store unchanged; otherwise exactly the playlist records with the id go, and videos are untouched |
| Playlists.EditKeepsRefusal | src/controllers/playlist.js:94-108 | An edit that keeps ids and owners keeps the playlist findable with the same owner, so the next edit passes the same checks |
| Playlists.AddVideoTwice | src/controllers/playlist.js:111-117 | Adding the same video a second time changes nothing |
| Playlists.AddThenRemoveRestores | src/controllers/playlist.js:111-169 | Adding a video the playlist did not list, then removing it, restores the original store |
| Playlists.RemoveKeepsOrder | src/controllers/playlist.js:139-169 | When the playlist lists `before` then `after`, the answered playlist lists what is left of each, in turn, so the other entries keep their order |
| Playlists.CreatedPlaylistIsListed | src/controllers/playlist.js:17-21 | A created playlist appears, empty, among the creator's playlists, which grow by one |
| Comments.LikerIdsOnComment | src/controllers/comment.js:51-89 | The liker ids of a comment's likes are exactly those likes' likers |
| Comments.CommentLikers | src/controllers/comment.js:51-89 | The existing users who liked the comment, one per resolving like; all likes counted when every liker exists |
| Comments.Entry | src/controllers/comment.js:51-89 | A comment entry's like count is the length of its likers list |
| Comments.SortNewest | src/controllers/comment.js:17 | The comments reordered newest first, as a permutation |
| Comments.EntriesOf | src/controllers/comment.js:51-89 | The entries built from a list of comments are exactly the entries of its members |
| Comments.GetVideoComments | src/controllers/comment.js:9-105 | A malformed id or absent video answers 500 (both errors are caught); otherwise the video's comments with a resolving owner, newest first, each counting its resolving likers |
| Comments.Listing | src/controllers/comment.js:128-155 | A listed comment has its video and owner populated, counts the likes on it, and names one liker per like, in store order |
| Comments.Listings | src/controllers/comment.js:151-155 | One entry per comment, in the order given |
| Comments.GetAllComments | src/controllers/comment.js:107-162 | 500 exactly when a like on a stored comment has a missing liker; otherwise every comment once, newest first, each with its like count and liker names |
| Comments.AllCommentsCountsLikers | src/controllers/comment.js:142-147 | In the all-comments listing, each entry's like count equals the length of its likers list |
| Comments.AddComment | src/controllers/comment.js:165-188 | 400 for a malformed video id with nothing changed; otherwise one comment by the caller on that video is appended, whether or not the video exists |
| Comments.AddedCommentIsListed | src/controllers/comment.js:170-179 | A comment by an existing user on an existing video shows up in that video's comments |
| Comments.UpdateComment | src/controllers/comment.js:190-226 | 400 for a malformed id; 500 for an absent comment; 403 for a non-owner; otherwise only that comment's content changes, to the content the request carries; a request without content changes nothing and answers the comment as it is |
| Comments.UpdateCommentTwice | src/controllers/comment.js:207-213 | Updating twice with the same request is the same as once |
| Comments.DeleteCommentAsWritten | src/controllers/comment.js:228-254 | As written: 400 for a malformed id, and 500 with nothing deleted for every well-formed id |
| Comments.DeleteComment | src/controllers/comment.js:228-254 | Corrected: 400, 500 for an absent comment, 403 for a non-owner; otherwise exactly the likes on the comment and then the comment go, and nothing else changes |
| Comments.DeleteCommentAsWrittenKeepsComment | src/controllers/comment.js:235-239 | Where the corrected handler deletes, the written one answers 500 and the comment stays |
| Comments.DeleteCommentTwice | src/controllers/comment.js:242-243 | After a deletion, a second one finds no comment and answers 500 with nothing changed |
| Tweets.CreateTweet | src/controllers/tweet.js:9-30 | Empty content answers 500 (the 400 is caught) with nothing created; otherwise one tweet by the caller is appended |
| Tweets.TweetEntry | src/controllers/tweet.js:45-65 | A user-tweet entry counts the likes on the tweet and lists one liker name per like |
| Tweets.Entries | src/controllers/tweet.js:61-65 | One entry per tweet, in order |
| Tweets.GetUserTweets | src/controllers/tweet.js:32-76 | 500 exactly when a like on one of the caller's tweets has a missing liker; otherwise exactly the caller's tweets in store order, each with as many liker names as likes |
| Tweets.TweetEntryFrame | src/controllers/tweet.js:45-57 | An entry depends only on the likes and the users |
| Tweets.CreateKeepsLikesIntact | src/controllers/tweet.js:18-21 | Creating a tweet that no like targets adds no failing like to the caller's listing |
| Tweets.CreatedTweetIsListed | src/controllers/tweet.js:18-21 | A new tweet shows up last in the caller's listing with no likes, after the earlier entries unchanged |
| Tweets.UpdateTweet | src/controllers/tweet.js:79-131 | Checks in order: missing content 400, malformed id 400, absent tweet 404, non-owner 403, each with nothing changed; otherwise only that tweet's content changes |
| Tweets.UpdateTweetTwice | src/controllers/tweet.js:108-116 | Updating twice with the same content is the same as once |
| Tweets.DeleteTweet | src/controllers/tweet.js:133-164 | Every failure answers 500 with nothing changed; success exactly for the owner, when the likes on the tweet and then the tweet go and nothing else changes |
| Tweets.DeleteTweetTwice | src/controllers/tweet.js:149-150 | After a deletion no like targets the tweet, it is gone, and a second deletion answers 500 |
| Tweets.OwnerName | src/controllers/tweet.js:179-192 | The owner's name when the owner exists, nothing otherwise |
| Tweets.Listed | src/controllers/tweet.js:169-224 | The count is of the likes on the tweet; `likedBy` holds exactly the existing users who liked it |
| Tweets.GetAllTweets | src/controllers/tweet.js:166-236 | Every tweet in store order, each with its listed entry |
| Tweets.NewTweetLikeIsCounted | src/controllers/tweet.js:218 | One more like on a tweet raises its listed count by one |
| Dashboard.SumViews | src/controllers/dashboard.js:15-18 | The sum is 0 for no videos and bounds each video's views |
| Dashboard.SumViewsConcat | src/controllers/dashboard.js:15-18 | The sum over a concatenation is the sum of the sums |
| Dashboard.SumViewsOfBump | src/controllers/dashboard.js:15-18 | One more view on every video with an id raises the sum by the number of those videos |
| Dashboard.GetChannelStats | src/controllers/dashboard.js:9-49 | Never an error; total views is the sum over the caller's videos (0 when none), and the counts are of subscriptions to the channel, of its videos, and of likes on any of them |
| Dashboard.VideoLikesWithinTotal | src/controllers/dashboard.js:29-35 | The likes on any one of the channel's videos are among its total likes |
| Dashboard.ViewRaisesTotal | src/controllers/dashboard.js:15-18 | A recorded view of one of the channel's videos raises total views by one per record with that id |
| Dashboard.SubscribeRaisesTotal | src/controllers/dashboard.js:21-23 | A new subscriber raises total subscribers by one |
| Dashboard.GetChannelVideos | src/controllers/dashboard.js:51-70 | 400 iff the caller id is malformed; otherwise exactly the caller's videos, as many as the stats count |
| Users.GetUserChannelProfile | src/controllers/user.js:388-472 | 400 for a malformed id and 404 for an unknown channel; the counters count subscriptions to and by the channel and the channel's videos; `isSubscribed` iff a subscription from the viewer to the channel exists |
| Users.ChannelCountSplit | src/controllers/user.js:419-421 | A channel's subscribers split into the viewer's subscriptions and everyone else's |
| Users.SubscribedIff | src/controllers/user.js:425-433 | The viewer is among the subscribers iff the toggle's filter matches something |
| Users.ToggleMovesCounts | src/controllers/user.js:419-421 | A subscription toggle moves the matching count and the channel's subscriber count by one, up or down |
| Users.ProfileAfterToggle | src/controllers/user.js:419-433 | After a toggle, the profile the viewer sees has the subscriber count moved by one and `isSubscribed` following whether a match is left |
| Users.AddToWatchHistory | src/controllers/user.js:474-501 | An unknown caller or a malformed video id answers 500 with nothing changed; otherwise the cast id is pushed onto the caller's history (duplicates allowed) and nothing else changes |
| Users.FindAfterPush | src/controllers/user.js:487-490 | After a push, the caller reads as before with the id appended, and every other user reads as before |
| Users.AddToWatchHistoryTwice | src/controllers/user.js:487 | Pushing the same id twice leaves it twice at the end of the history |
| Users.WatchedVideos | src/controllers/user.js:516-541 | One entry per video, in order, each with its owner's card |
| Users.GetWatchHistory | src/controllers/user.js:503-555 | An unknown caller answers 500; otherwise exactly the existing videos named in the history, once each, in collection order, each with its owner's card |
| Users.RewatchKeepsView | src/controllers/user.js:487 | Pushing an id already in the history changes nothing in the history view |
| Users.NewWatchShowsInView | src/controllers/user.js:487 | Pushing an existing video's id makes it appear in the history view |
| Users.Distinct | src/controllers/user.js:636-638 | The grouping keys: each present key once, and nothing else |
| Users.GroupFor | src/controllers/user.js:643-655 | A group carries its key and the first read like that the lookup matches, with one liker per like keyed to it |
| Users.Groups | src/controllers/user.js:643-656 | One group per key, in key order |
| Users.GetUserDetails | src/controllers/user.js:557-689 | 404 for an unknown user; each count equals its list's length; the lists hold exactly the user's comments, tweets, videos and playlists; the subscriber count and subscriptions are the user's; the likes are grouped by content |
| Users.LikesOnContentAreMine | src/controllers/user.js:591-597 | A like is read iff it is on one of the user's comments, tweets or videos |
| Users.GroupsPartitionLikes | src/controllers/user.js:625-656 | Groups have distinct keys, one per item some read like populates, each listing the likers of that item's likes in store order |
| Users.GroupLikes | src/controllers/user.js:626-640 | The grouping loop: its keys are the distinct keys in first-seen order, and each key maps to the likers of the likes with that key, in order |
| Users.GroupedStep | src/controllers/user.js:627-639 | One pass of the loop keeps the grouping in step with the likes read so far |
| Users.UnkeyedStep | src/controllers/user.js:635 | A like with no populated target changes no group |
| Users.KeyedStep | src/controllers/user.js:636-639 | A keyed like adds its liker to its own group, opening it if needed, and to no other |
| UserRemoval.DeleteCommentAndRelatedData | src/controllers/user.js:782-788 | Exactly the likes on the comment and the comments with its id go, and nothing else changes |
| UserRemoval.DeleteComments | src/controllers/user.js:721-725 | Over a list: exactly the likes on, and the comments with, any listed id go |
| UserRemoval.DeleteVideoAndRelatedData | src/controllers/user.js:756-769 | The video's likes, its comments and their likes, then the video go; playlists, histories and the rest are untouched; its media are destroyed |
| UserRemoval.DeleteVideoComments | src/controllers/user.js:756-769 | The comments that go are exactly those sharing an id with a comment on the video |
| UserRemoval.DeleteVideoLikes | src/controllers/user.js:756-769 | The likes that go are exactly those on the video or on the id of a comment on it |
| UserRemoval.DeleteVideos | src/controllers/user.js:709-713 | Over a list: exactly the listed videos go, with no comment or like left on them; every listed video's media are destroyed |
| UserRemoval.DeletePlaylistAndRelatedData | src/controllers/user.js:771-780 | Every existing video the playlist lists goes, whoever owns it, then the playlist |
| UserRemoval.DeletePlaylists | src/controllers/user.js:715-719 | Over a list: exactly the listed playlists and the videos any of them lists go |
| UserRemoval.DeleteVideosSpares | src/controllers/user.js:709-713 | Deleting a list of videos keeps every comment on none of them and every like on none of them or their comments |
| UserRemoval.DeletePlaylistsSpares | src/controllers/user.js:715-719 | Deleting a list of playlists keeps every comment and like not tied to a video any of them lists |
| UserRemoval.ListedInAnyMeans | src/controllers/user.js:773-777 | "Listed in some playlist" means some playlist of the list holds the id |
| UserRemoval.PlaylistAmongMeans | src/controllers/user.js:715-719 | "Among the playlists" means some playlist of the list has the id |
| UserRemoval.RemoveTweets | src/controllers/user.js:701-707 | Exactly the user's tweets and the likes on them go |
| UserRemoval.RemoveLikesBy | src/controllers/user.js:728 | Exactly the likes the user gave go |
| UserRemoval.CleanupSubscriptions | src/controllers/user.js:790-806 | No subscription naming the user on either side stays; every subscription whose id no such subscription shares stays |
| UserRemoval.RemoveUserRecord | src/controllers/user.js:742 | Exactly the user records with the id go |
| UserRemoval.ProfileMedia | src/controllers/user.js:738-739 | A non-empty avatar or cover image is destroyed as an image, and nothing else is requested |
| UserRemoval.RemoveUser | src/controllers/user.js:691-753 | 404 with nothing changed for an absent user; otherwise the staged removal and its destroy requests |
| UserRemoval.RemovalMedia | src/controllers/user.js:709-739 | The answer holds the media of every video of the user's and the profile images |
| UserRemoval.RemovalShrinks | src/controllers/user.js:701-742 | The removal only deletes, and never leaves a like or comment on a comment or video that it deleted |
| UserRemoval.RemovalTweets | src/controllers/user.js:701-707 | Exactly the user's tweets are gone |
| UserRemoval.RemovalLikes | src/controllers/user.js:701-728 | No like by the user and no like on one of the user's tweets is left; a like by someone else stays when its tweet is not the user's and its video and comment survive |
| UserRemoval.RemovalPlaylists | src/controllers/user.js:715-719 | Exactly the user's playlists are gone |
| UserRemoval.RemovalVideos | src/controllers/user.js:709-719 | A video stays iff no record with its id is the user's and none of the user's playlists lists it |
| UserRemoval.RemovalComments | src/controllers/user.js:709-725 | No comment of the user's is left, and no comment or like is left on a video of the user's; a comment stays when no record with its id is the user's or on a removed video |
| UserRemoval.RemovalCommentLikes | src/controllers/user.js:721-725 | No like is left on a comment of the user's |
| UserRemoval.RemovalSubscriptionsAndUsers | src/controllers/user.js:731-742 | No subscription names the user, a subscription whose id no such subscription shares stays, and exactly the user's record is gone |
| UserRemoval.RemovalLeavesDanglingPlaylistEntry | src/controllers/user.js:756-769 | Another user's playlist keeps listing a deleted video of the user's, unlike after the public deletion |
| UserRemoval.RemovalLeavesDanglingHistoryEntry | src/controllers/user.js:756-769 | Another user's watch history keeps the id of a deleted video of the user's |
| Seqs.RemoveFirst | src/controllers/like.js:18-21 | `findOneAndDelete`: one fewer match when there is one, the same sequence when there is none, and non-matches untouched |
| Seqs.AddToSet | src/controllers/playlist.js:111-117 | `$addToSet`: the element is present afterwards, the old entries keep their places, and at most one is added |
| Seqs.Pull | src/controllers/playlist.js:163-169 | `$pull`: the element is absent afterwards, and every other element stays |
| Seqs.PullTwice | src/controllers/playlist.js:163-169 | Pulling twice is pulling once |
| Seqs.AddToSetTwice | src/controllers/video.js:137-143 | Adding twice is adding once |
| Seqs.SortBy | src/controllers/video.js:41-51 | The sort yields an ascending permutation of its input |

## Left out

- HTTP plumbing is not modelled: routes, the app, the response envelopes and the database connection are wiring only.
- Authentication is not modelled: JWT verification, passwords and tokens. The signed-in caller is a parameter `me`, always present.
- Real media-service calls and `fs.unlinkSync` are left out. A deletion answers the destroy requests it would send. An upload takes the media service as a function parameter.
- The float `duration` of upload responses, and `publishAVideo` and `updateVideo`, which consist of upload handling, are left out.
- Pagination is left out: page, limit, `aggregatePaginate` and `hasNext`/`hasPrevious`. Each listing is modelled as one page holding every match.
- Regex title and description search in `getAllVideos` is left out: it is library behaviour.
- Sorting on fields other than `createdAt` and `views` ranks all videos alike. Ties keep store order, where MongoDB leaves the order unspecified.
- Concurrency is left out. The check-then-act races of the toggles are outside a sequential model.
- Ids and timestamps assigned by the store are parameters (`newId`, `now`).
- The cast of a malformed id is modelled only by its outcome, the status listed above. Mongoose's cast rules beyond the 24-digit form are left out.
- Playlists.CreatePlaylist: a request without a name or a description only logs a message and then creates the playlist. Whether the store accepts such a record depends on the playlist schema. src/models/playlist.js is not part of this model, so the model always creates it with the given strings.
- The 12-byte string form that `isValidObjectId` also accepts is left out; only 24 hexadecimal digits count as an object id.
- `createTweet` is not wrapped in `asyncHandler`, so its 500 surfaces as an unhandled rejection rather than a response. It is modelled as the error it throws.
- `removeUser`'s `try`/`catch`, which turns a failing step into a 500 midway, is left out: the store operations never fail in the model.
- `getWatchHistory` on an unknown caller reads `user[0]` of an empty array and fails; it is modelled as 500.
- UserRemoval.ProfileMedia: states membership and exclusion but not the order or count of the two requests (avatar first, then cover image), because the list is built by a helper and the counting adds nothing the cascade lemmas use.
- UserRemoval.Removal: carries no contract of its own; its properties are stated by the `Removal*` lemmas and by `UserRemoval.RemoveUser`.
- Tweets.GetUserTweets: the 500 for a missing liker is modelled from the `like.likedBy.fullName` read. The populated owner's `fullName` projection is modelled as the whole user record.
- Likes.GetUserLikedVideos: the population of the liked video's owner and of the liker is not modelled; the entries are the likes themselves.
- Videos.Listing: owner and liker projections (`username`, `fullName`, `avatar`) are the whole user records.
- Comments.AddComment: a request without `content` is not modelled; whether the store accepts such a comment depends on the comment schema. src/models/comment.js is not part of this model, so the model always creates it with the given string.
- Videos.TogglePublishStatus: the answer is the whole video record, with its `owner`; the code reads the video with `select("-owner")`, so its answer has no owner field. Projections are left out because they change only the shape of the response.
- Videos.GetVideoById: the answer carries the owner's id; the code populates `owner` with the owner's `fullName` and `username`.
- Subscriptions.GetUserChannelSubscribers: each entry is the whole user record; the code's projection drops the password, email, watch history and the other excluded fields.
- Subscriptions.GetSubscribedChannels: each entry is the whole user record; the code's projection drops the same fields.

## Findings

| source | as written | input that shows it | evidently intended | confidence | as-written member | corrected member |
|---|---|---|---|---|---|---|
| src/controllers/comment.js:235-239 | The ownership check compares the comment's owner with `userId`, which `deleteComment` never declares, so every call with a well-formed id throws before deleting anything and answers 500 | Any well-formed `commentId`, including that of a comment the caller owns | Compare against `req.user._id`, then delete the likes on the comment and the comment | not executed | Comments.DeleteCommentAsWritten, Comments.DeleteCommentAsWrittenKeepsComment | Comments.DeleteComment |
| src/controllers/subscription.js:17-19 | The self-subscription guard compares the raw request id with the caller's id, but the queries and the created record use the cast id, which ignores hex case | The caller `aaaaaaaaaaaaaaaaaaaaaaaa` toggling `AAAAAAAAAAAAAAAAAAAAAAAA`: the guard passes, and a subscription naming the caller on both sides is stored | Compare the cast id with the caller's id, so every spelling of the caller's own id answers 403 | not executed | Subscriptions.ToggleSubscriptionAsWritten, Subscriptions.SelfSubscriptionAsWritten | Subscriptions.ToggleSubscription, Subscriptions.ToggleKeepsNoSelfSubscription |
