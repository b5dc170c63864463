# mobx_messenger_base — a verified model of the message synchronisation engine

This project models the client-side core of a messenger written in TypeScript on mobx. It covers the
state these objects keep and the decisions they make; network calls become parameters, and requests
are returned as values.

- **MessengerStore** (`messenger_store.dfy`): the three buckets of conversations (`chats`, `archive`,
  `bots`). It moves a chat between the chat list and the archive, and puts it back at the front of
  its old bucket when the server refuses. It also covers move-to-front reordering, routing of
  pushed events (a known chat first, then a newly loaded one), unread counting, the `entities`
  ordering with the saved-messages chat first, and the opened/active chat.
- **Chat** (`chat.dfy`, `chat_settings.dfy`, `conversation.dfy`): the member, title and unread
  getters, the keyboard of the last message, and selection of messages by id. Quote and forward
  exclude each other. It covers send, resend, cancel and delete of a message with its `sending`
  and `error` flags, and the mute setting.
- **ChatMessages** (`chat_messages.dfy`) over a **MessagesChain** of **MessageLink** nodes
  (`messages_chain.dfy`, `message_link.dfy`). The chain is an array of nodes, newest first, whose
  `prev`/`next` references agree with array adjacency. ChatMessages covers the "new messages"
  divider, the paging flags `moreAfter`/`moreBefore` and the per-direction loading guards, the
  reconciliation of a pushed message with a pending node or a known id, and the choice of the
  read target. The day and sender-block boundaries of a link are derived from its neighbours.
- **Message** and **Emotion** (`message.dfy`, `emotion.dfy`, `reactions.dfy`): normalisation in
  the constructor, the flags and setters, the layout and bubble classification, and the upload
  loop. The reaction toggle keeps each user in at most one emoji aggregate and drops aggregates
  that become empty.
- **Helpers**:
  - chunking of attachments (`attachment.dfy`) and grouping them by type (`splited_attachments.dfy`);
  - the last-message summary (`last_message.dfy`);
  - the message editor, search cursor and message finder (`message_editor.dfy`,
    `message_search.dfy`, `message_finder.dfy`);
  - the upload `Loader` status machine (`loader.dfy`);
  - link fixing and query strings of the API client (`api.dfy`), and the user helpers (`user.dfy`);
  - string helpers (`text.dfy`) and `Option`/`Result` (`wrappers.dfy`).

An asynchronous method of the source is split in two. A `Begin…` method performs the synchronous
prefix and returns a ticket or a request. A `Finish…` method takes the awaited results as
parameters and commits the `runInAction` block as one atomic step. Clocks and the day key of a
timestamp (`dayOf`) are parameters as well.

## Model

| member | source | states |
|---|---|---|
| Apis.EncodeUriComponent | core/api/Api.ts:46-47 | an encoded component is never shorter than its input |
| Apis.EncodeSafe | core/api/Api.ts:46-47 | every character `encodeURIComponent` emits is unreserved, '%' or an upper-case hex digit |
| Apis.EncodeUnreserved | core/api/Api.ts:46-47 | a component made only of unreserved characters is emitted unchanged |
| Apis.ParamFree | core/api/Api.ts:46-47 | an encoded `key=value` pair never contains the "&" separator |
| Apis.Query | core/api/Api.ts:49-60 | the query is empty exactly when no pair was emitted |
| Apis.QuerySnoc | core/api/Api.ts:49-57 | one more emitted pair extends the query by "?" when it was empty, by "&" otherwise, and the pair |
| Apis.GetQueryParameters | core/api/Api.ts:45-61 | no options give ""; otherwise the loop's result is the "?"-prefixed, "&"-joined list of the encoded defined pairs in key order |
| Apis.QueryStringSnoc | core/api/Api.ts:53-59 | a key whose value is undefined leaves the query unchanged; a defined one appends its separator and pair |
| Apis.QueryStringParts | core/api/Api.ts:49-60 | when at least one value is defined the query starts with "?" and its "&"-separated parts are exactly the encoded defined pairs, in order |
| Apis.QueryStringEmpty | core/api/Api.ts:51-60 | the query is "" exactly when every value is undefined |
| Apis.SplitJoin | core/api/Api.ts:49-57 | joining pieces free of the separator is undone by splitting on it |
| Apis.Api.constructor | core/api/Api.ts:10-16 | the client starts on the production host with only the JSON content type header |
| Apis.Api.FixLink | core/api/Api.ts:63-75 | `undefined` stays `undefined` and a link starting with "http" is returned unchanged |
| Apis.Api.FixLinkIdempotent | core/api/Api.ts:63-75 | fixing a fixed link changes nothing, and every fixed link starts with "http" |
| Apis.Api.FixLinkLeadingSlash | core/api/Api.ts:71-74 | a relative path resolves to the same URL with or without one leading "/" |
| Apis.Api.Configure | core/api/Api.ts:77-93 | `prod` selects the production or development host; given headers replace the old ones over the JSON content type, absent headers keep the old ones |
| Users.GetFullName | core/user/User.ts:44-52 | no person gives nothing; a truthy first or last name gives the trimmed "first last"; otherwise the username, with the assistant bot's login replaced by its display name |
| Users.FullNameOfBothNames | core/user/User.ts:47-48 | with both names given and no outer blanks, the full name is exactly "first last" |
| Users.FullNameOfFirstName | core/user/User.ts:47-48 | an empty last name yields the first name alone: the separating space is trimmed away |
| Users.User.constructor | core/user/User.ts:8-10 | a user holds the token and info it was created with |
| Users.User.ToJson | core/user/User.ts:20-25 | `toJSON` carries the token and the info, an absent info as null |
| Users.User.Logout | core/user/User.ts:28-31 | after `logout` the token is "" and the info is null |
| Users.User.SetInfo | core/user/User.ts:33-35 | `setInfo` stores the info and keeps the token |
| Users.FilterPartDefined | core/user/User.ts:114-118 | the filters part lists `key=value&` for exactly the defined filters, in key order |
| Users.SearchQueryLayout | core/user/User.ts:109-120 | the search parameters are query, page, room (only when truthy), the defined filters and count (only when truthy), in that order |
| Users.SearchQueryMinimal | core/user/User.ts:109-120 | with no room, no count and no defined filter only "query=…&page=…&" is sent |
| Users.SearchQuery | core/user/User.ts:109-120 | the parameter string always opens with the query and then the page |
| Users.ById | core/user/User.ts:37-40 | a person matches exactly when their id is the given one |
| Users.IsOnline | core/user/User.ts:79 | a person is online exactly when their status is not offline |
| Attachments.Split | core/attachment/Attachment.ts:12-21 | the reduce that pushes element `index` onto chunk `trunc(index / by)`, creating it when missing, builds exactly the consecutive chunks of `by` elements |
| Attachments.ChunksFlatten | core/attachment/Attachment.ts:12-21 | concatenating the chunks gives back the input |
| Attachments.ChunksAt | core/attachment/Attachment.ts:14-19 | element `i` lands in chunk `i div by` at position `i mod by` |
| Attachments.ChunksSizes | core/attachment/Attachment.ts:12-21 | no input gives no chunk; every chunk but the last holds exactly `by` elements and the last holds 1 to `by` |
| Attachments.ChunksCount | core/attachment/Attachment.ts:12-21 | there are `ceil(n / by)` chunks |
| Attachments.ChunksSnoc | core/attachment/Attachment.ts:15-19 | one more element opens a new chunk exactly when the count so far is a multiple of `by`, and grows the last chunk otherwise |
| Attachments.GetName | core/attachment/Attachment.ts:23-51 | stickers and audio get fixed labels whatever the count; file, image and video get singular labels for one attachment, and otherwise the count and the noun in its plural form for that count (for video, the count and "видео" behind the image icon); an unknown type gives "" |
| Attachments.GetNameIcons | core/attachment/Attachment.ts:23-51 | every known type gets a non-empty label opening with its icon; several videos open with the image icon, as written |
| Loaders.Loader.constructor | core/attachment/Loader.ts:18-32 | a new loader is on "hold" with no progress, no transfer and no reject function |
| Loaders.Loader.SetCurrent | core/attachment/Loader.ts:20-22 | only the transfer object changes |
| Loaders.Loader.SetReject | core/attachment/Loader.ts:27-29 | only the reject function changes |
| Loaders.Loader.SetStatus | core/attachment/Loader.ts:33-35 | only the status changes, to exactly the given value |
| Loaders.Loader.SetProgress | core/attachment/Loader.ts:55-57 | only the progress changes, to exactly the given counts |
| Loaders.Loader.Abort | core/attachment/Loader.ts:38-42 | the running transfer, if any, is aborted, and the loader always ends on "hold" with no progress |
| Loaders.Loader.Stop | core/attachment/Loader.ts:45-50 | only a loading transfer with a reject function is rejected and put on "hold"; otherwise nothing changes; afterwards the guard is false, so a second `stop` is a no-op |
| Loaders.UploadKind | core/attachment/Request.ts:19-28 | the endpoint is image, video or audio when the mime type is the first to mention that word, and file otherwise; never sticker |
| Loaders.Upload.constructor | core/attachment/Request.ts:10-17 | a new request holds its file, no cached answer and a fresh loader on "hold" |
| Loaders.Upload.Resolve | core/attachment/Request.ts:82-84 | a successful `start` caches the server's attachment on the request |
| Emotions.Dedup | messenger/classes/Message/Emotion.ts:10-11 | `new Set(users)` holds each user once, exactly the users of the input |
| Emotions.DedupDistinct | messenger/classes/Message/Emotion.ts:10-11 | a list without duplicates is kept as it is |
| Emotions.Without | messenger/classes/Message/Emotion.ts:23-26 | `set.delete(u)` drops `u`, keeps every other member and keeps the members distinct; it changes nothing when `u` is absent |
| Emotions.Added | messenger/classes/Message/Emotion.ts:27-30 | `set.add(u)` makes `u` a member, keeps every other member and keeps the members distinct |
| Emotions.WithoutAdded | messenger/classes/Message/Emotion.ts:23-30 | deleting a user just added restores the exact list |
| Emotions.ToggledTwice | messenger/classes/Message/Emotion.ts:31-33 | toggling twice restores the set of users, and the exact list when the user was absent |
| Emotions.Emotion.constructor | messenger/classes/Message/Emotion.ts:10-14 | a new aggregate keeps the emoji and the deduplicated users |
| Emotions.Emotion.Has | messenger/classes/Message/Emotion.ts:20-22 | a user has the reaction exactly when they are in its user list |
| Emotions.Emotion.IsEmpty | messenger/classes/Message/Emotion.ts:35-37 | an aggregate is empty exactly when no user has it |
| Emotions.Emotion.Delete | messenger/classes/Message/Emotion.ts:20-26 | afterwards `has(u)` is false and every other user keeps their membership |
| Emotions.Emotion.Add | messenger/classes/Message/Emotion.ts:20-30 | afterwards `has(u)` is true and every other user keeps their membership |
| Emotions.Emotion.Toggle | messenger/classes/Message/Emotion.ts:31-33 | `has(u)` flips and nobody else's membership changes |
| Emotions.Emotion.ToJson | messenger/classes/Message/Emotion.ts:39-42 | `toJSON` returns the emoji and the current user list |
| Emotions.HasId | messenger/classes/Message/Emotion.ts:62 | an aggregate matches exactly when the user is among its users |
| Emotions.ByEmoji | messenger/classes/Message/Emotion.ts:63 | an aggregate matches exactly when it is for that emoji |
| Messages.NormalizeEmotions | messenger/classes/Message/Emotion.ts:59-60 | `Emotion.listBy` keeps the order and the emojis and deduplicates every user list |
| Messages.NormalizeNormal | messenger/classes/Message/Message.ts:44-62 | normalised data is in the constructor's shape (no missing flag, list or body, down the forwarded chain), and data in that shape is normalised to itself |
| Messages.ToData | messenger/classes/Message/Message.ts:86-107 | `toJSON` writes back every field the message holds |
| Messages.FieldsJoin | messenger/classes/Message/Message.ts:44-107 | the fields the constructor keeps, written with the reactions by `toJSON`, are the normalised input |
| Messages.MakeEmotions | messenger/classes/Message/Emotion.ts:59-60 | `listBy` builds fresh, distinct, well-formed aggregates whose values are the normalised input, in order |
| Messages.Message.constructor | messenger/classes/Message/Message.ts:41-64 | a new message holds its argument normalised (`!!deleted`, `!!edited`, body "" and empty lists by default), and is neither sending nor failed |
| Messages.Message.DataNormal | messenger/classes/Message/Message.ts:44-107 | what `toJSON` writes, the constructor reads back unchanged |
| Messages.Message.Update | messenger/classes/Message/Message.ts:66-84 | `update(m)` leaves the message holding exactly what a message built from `m` holds, and keeps the local sending state |
| Messages.Message.ShortBody | messenger/classes/Message/Message.ts:123-127 | nothing for an empty body; a body of at most 45 characters as it is; a longer one is cut to its first 40 characters and "..." |
| Messages.Message.LayoutType | messenger/classes/Message/Message.ts:128-134 | "forward" exactly when the message has a forwarded message, an empty body and no attachments |
| Messages.Message.IsSticker | messenger/classes/Message/Message.ts:136-148 | the first attachment shown (the message's own, or the forwarded message's for a forward) is a sticker |
| Messages.Message.IsAudio | messenger/classes/Message/Message.ts:150-165 | a forward shows audio exactly when the forwarded message's first attachment is audio; a default message exactly when its own first attachment is audio or its first pending upload is an audio file |
| Messages.Message.BubbleType | messenger/classes/Message/Message.ts:167-178 | system wins, then deleted, then sticker, then audio, else default |
| Messages.Message.IsCheckable | messenger/classes/Message/Message.ts:180-182 | a message can be selected exactly when it is neither a system message nor deleted |
| Messages.Message.SplitedAttachs | messenger/classes/Message/Message.ts:183-185 | the grouping holds, per type, the message's attachments of that type in order |
| Messages.Message.SetBody | messenger/classes/Message/Message.ts:187-190 | only the body changes |
| Messages.Message.SetReaded | messenger/classes/Message/Message.ts:192-194 | only `unread` changes, to false |
| Messages.Message.SetDeleted | messenger/classes/Message/Message.ts:195-198 | the message is marked deleted and its body replaced by the fixed notice; nothing else changes |
| Messages.Message.SetId | messenger/classes/Message/Message.ts:234-236 | only the id changes |
| Messages.Message.MarkSending | messenger/classes/Message/Message.ts:238-241 | only the sending flag changes |
| Messages.Message.MarkError | messenger/classes/Message/Message.ts:242-245 | only the error changes |
| Messages.Message.SetForward | messenger/classes/Message/Message.ts:255-258 | only the forwarded message changes |
| Messages.Message.SetAttachment | messenger/classes/Message/Message.ts:260-263 | only the attachments change |
| Messages.Message.SetUploads | messenger/classes/Message/Message.ts:270-273 | only the pending uploads change |
| Messages.Message.ToggleReactions | messenger/classes/Message/Message.ts:202-226 | the aggregates become `Toggle` of the old ones (whose properties the Reactions lemmas prove), the objects stay well formed, and nothing else changes |
| Messages.Message.ToggleOwn | messenger/classes/Message/Message.ts:213-214 | the user leaves the aggregate they already chose, which is spliced out when it becomes empty |
| Messages.Message.MoveReaction | messenger/classes/Message/Message.ts:216-224 | the user leaves the old aggregate, is toggled in the target or pushed in a new one, and then the first of the two that became empty is spliced out |
| Messages.Message.DeleteAt | messenger/classes/Message/Message.ts:214-216 | `delete(u)` on one aggregate object changes only that aggregate's users |
| Messages.Message.ToggleAt | messenger/classes/Message/Message.ts:217 | `toggle(u)` on the target object changes only that aggregate's users |
| Messages.Message.PushEmotion | messenger/classes/Message/Message.ts:211 | a new aggregate with only the user is pushed at the end |
| Messages.Message.RemoveEmotionAt | messenger/classes/Message/Message.ts:210 | the aggregate at the index is spliced out |
| Messages.Message.StopUploads | messenger/classes/Message/Message.ts:275-277 | every pending upload's loader is stopped, as `Loader.stop` describes |
| Messages.Message.BeginUploads | messenger/classes/Message/Message.ts:291-295 | with pending uploads the message is marked loading and every loader stopped; without, nothing changes |
| Messages.Message.FinishUploads | messenger/classes/Message/Message.ts:296-308 | after the loop, success replaces the uploads by the attachments in order and failure keeps the uploads and records and returns the first failure; loading stops either way; on failure every upload before the first failure holds its attachment and the others are unchanged |
| Messages.Message.Conclude | messenger/classes/Message/Message.ts:297-306 | the two `runInAction` outcomes of `startUploads` |
| Messages.Message.StartUploads | messenger/classes/Message/Message.ts:291-310 | no uploads is a no-op; otherwise the outcome is the in-order loop over the uploads, committed as `FinishUploads` states |
| Messages.LoadAll | messenger/classes/Message/Message.ts:283-289 | the loop's result is `Loads` of each upload's cached attachment or, when it has none, its start answer; every upload before the first failure ends up holding its attachment, and from the first failure on no upload changes |
| Messages.Resolve | messenger/classes/Message/Message.ts:286 | an upload resolves to its cached attachment, and only without one to the answer of starting it |
| Messages.LoadsMeaning | messenger/classes/Message/Message.ts:283-289 | success gives every answer in order; failure happens exactly when some answer fails, and is the first failed answer |
| Messages.LoadsSnoc | messenger/classes/Message/Message.ts:285-287 | one more upload either keeps an earlier failure, fails, or appends its attachment |
| Messages.Create | messenger/classes/Message/Message.ts:312-339 | given the generated id and the time, a fresh message that is not deleted, not edited, unread, with `createdAt == updatedAt`, an empty keyboard, no mentions, urls or reactions, and not sending |
| Messages.AsForward | messenger/classes/Message/Message.ts:248-253 | a pure forward gives its forwarded message; any other message gives a fresh copy of itself without a forwarded message |
| Messages.CompareAttachment | messenger/classes/Message/Message.ts:347-370 | the nested-loop comparison is true exactly when both lists have the same length and the same id at each index |
| Messages.CompareBody | messenger/classes/Message/Message.ts:372-374 | bodies compare equal exactly when they are the same string: the "both empty" case adds nothing |
| Messages.CompareSender | messenger/classes/Message/Message.ts:375-377 | two messages compare equal exactly when their senders have the same id |
| Messages.CompareForwarded | messenger/classes/Message/Message.ts:378-380 | two messages without a forwarded message match; with one each, they match when its ids agree; with only one, they do not |
| Messages.ById | messenger/classes/Message/Message.ts:385-388 | a message matches exactly when its id is the given one |
| Messages.Equal | messenger/classes/Message/Message.ts:389-392 | identity is compared negated: with `flag` every other message matches, without it only the message itself |
| Messages.BySenderId | messenger/classes/Message/Message.ts:393-396 | with `flag` a message matches exactly when its sender has the id, without it exactly when the sender is someone else |
| SplitedAttachmentsModule.OfKindMembers | messenger/classes/Message/SplitedAttachments.ts:47-52 | a bucket holds only attachments of its type, all taken from the input |
| SplitedAttachmentsModule.OfKindSnoc | messenger/classes/Message/SplitedAttachments.ts:47-52 | one more attachment grows only its own type's bucket, at the end |
| SplitedAttachmentsModule.BucketsPartition | messenger/classes/Message/SplitedAttachments.ts:48-50 | untyped attachments are skipped: the bucket sizes add up to the number of typed attachments |
| SplitedAttachmentsModule.SplitedAttachments.constructor | messenger/classes/Message/SplitedAttachments.ts:9-13 | all five buckets start empty |
| SplitedAttachmentsModule.SplitedAttachments.Reduce | messenger/classes/Message/SplitedAttachments.ts:47-52 | a typed attachment is pushed onto its bucket, an untyped one changes nothing |
| SplitedAttachmentsModule.SplitedAttachments.Length | messenger/classes/Message/SplitedAttachments.ts:15-29 | five `(type, count)` pairs in the order video, image, file, sticker, audio, each with its bucket's size |
| SplitedAttachmentsModule.SplitedAttachments.NonEmpty | messenger/classes/Message/SplitedAttachments.ts:32 | the pairs with a non-zero count; none exactly when every bucket is empty |
| SplitedAttachmentsModule.SplitedAttachments.Discription | messenger/classes/Message/SplitedAttachments.ts:31-45 | "" exactly when every bucket is empty; the type's `getName` label for a single kind; for two to four kinds "📎N вложения" and for five "📎5 вложений" |
| SplitedAttachmentsModule.CreateBy | messenger/classes/Message/SplitedAttachments.ts:54-56 | the reduce leaves each bucket holding exactly its type's attachments, in input order |
| LastMessages.GetAuthorName | messenger/classes/Chat/LastMessage.ts:12-18 | "Вы: " for the user's own message, "username: " in a group chat and "" in a dialog |
| LastMessages.Text | messenger/classes/Chat/LastMessage.ts:20-64 | with an attachment type, icon and label (both rendered "undefined" for a sticker, which has neither); otherwise, for a forward, the reply label when the body is truthy and the forwarded label when not; otherwise the body or "" |
| LastMessages.NormalParsable | messenger/classes/Chat/LastMessage.ts:67-77 | data in the message constructor's shape carries every field `parse` reads, down the forwarded chain |
| LastMessages.Parse | messenger/classes/Chat/LastMessage.ts:67-103 | the summary copies id, body, time and sender, has a forwarded summary exactly when the data has a forwarded message, and takes its class from the attachments |
| LastMessages.ParseMessage | messenger/classes/Chat/LastMessage.ts:67-103 | the summary of a message object copies its id, body, time and sender, has a forwarded summary exactly when the message has a forwarded message, and classifies its attachments |
| LastMessages.ParseKind | messenger/classes/Chat/LastMessage.ts:78-94 | the class comes from the first attachment only: image gives photo, file gives file, video gives video, anything else or none gives null; never sticker |
| LastMessages.ParseCopies | messenger/classes/Chat/LastMessage.ts:95-102 | `parse` copies id, body, time and sender and parses the forwarded message the same way |
| LastMessages.ParseDepth | messenger/classes/Chat/LastMessage.ts:100 | the summary nests exactly as deep as the forwarded chain it was parsed from |
| LastMessages.TextOfParse | messenger/classes/Chat/LastMessage.ts:20-94 | the text of a parsed message: "📷 Фото", "📎 Файл" or "📹 Видео" for an image, file or video first attachment; otherwise the reply or forwarded label for a forward; otherwise the body |
| LastMessages.Icon | messenger/classes/Chat/LastMessage.ts:42-52 | an icon for a video, photo or file summary, none (undefined) only for a sticker |
| LastMessages.Label | messenger/classes/Chat/LastMessage.ts:54-64 | a label for a video, photo or file summary, none (undefined) only for a sticker |
| MessageLinks.MessageLink.constructor | messenger/classes/Chat/MessagesChain/MessageLink.ts:10-17 | a node holds its message and the neighbours it was given |
| MessageLinks.MessageLink.SetPrev | messenger/classes/Chat/MessagesChain/MessageLink.ts:47-49 | only `prev` changes, to the given node or null |
| MessageLinks.MessageLink.SetNext | messenger/classes/Chat/MessagesChain/MessageLink.ts:51-53 | only `next` changes, to the given node or null |
| MessageLinks.MessageLink.Id | messenger/classes/Chat/MessagesChain/MessageLink.ts:37-39 | a node's id is its message's id |
| MessageLinks.IsSelf | messenger/classes/Chat/MessagesChain/MessageLink.ts:118-123 | undefined exactly for a system message; true exactly for a non-system message whose sender is the signed-in user |
| MessageLinks.LayoutMessage | messenger/classes/Chat/MessagesChain/MessageLink.ts:157-161 | the forwarded message exactly for a pure forward, the node's own message otherwise |
| MessageLinks.ViewOf | messenger/classes/Chat/MessagesChain/MessageLink.ts:96-104 | the snapshot of a node the getters read carries the node's id and system flag (with its sender, day key and audio flag) |
| MessageLinks.StartOfDay | messenger/classes/Chat/MessagesChain/MessageLink.ts:109-115 | following `prev`, the nearest node that is the first of its day |
| MessageLinks.StartOfDaySameDay | messenger/classes/Chat/MessagesChain/MessageLink.ts:109-115 | every node from a node back to its start of day has the same day key |
| MessageLinks.IsStart | messenger/classes/Chat/MessagesChain/MessageLink.ts:62-73 | undefined exactly for a system message; false only when the older neighbour exists, is not a system message, has the same sender and day, and the node is not the divider |
| MessageLinks.IsFinish | messenger/classes/Chat/MessagesChain/MessageLink.ts:75-86 | undefined exactly for a system message; false only when the newer neighbour exists, is not a system message, has the same sender and day, and is not the divider |
| MessageLinks.FinishMeetsStart | messenger/classes/Chat/MessagesChain/MessageLink.ts:62-86 | for adjacent non-system nodes, the older one finishes its block exactly when the newer one starts a block |
| MessageLinks.EndOfBlock | messenger/classes/Chat/MessagesChain/MessageLink.ts:136-144 | undefined for a system message; otherwise the nearest node, following `next`, that finishes its block, with no finishing node in between |
| MessageLinks.StartOfBlock | messenger/classes/Chat/MessagesChain/MessageLink.ts:146-154 | undefined for a system message; otherwise the nearest node, following `prev`, that starts its block, with no starting node in between |
| MessageLinks.BlockSameSender | messenger/classes/Chat/MessagesChain/MessageLink.ts:146-154 | every node of a block, from its start to the node, has the node's sender and day and is not a system message |
| MessageLinks.NextAudioLink | messenger/classes/Chat/MessagesChain/MessageLink.ts:88-94 | the nearest newer node holding an audio message, or none when no newer node does |
| MessageLinks.IsFirst | messenger/classes/Chat/MessagesChain/MessageLink.ts:108-111 | a node is the first known of its day exactly when it is the oldest node or its older neighbour has another day key |
| MessageLinks.IsStartOfNew | messenger/classes/Chat/MessagesChain/MessageLink.ts:125-134 | a node is the start of the new messages exactly when a divider is set and holds the node's id |
| MessageLinks.ById | messenger/classes/Chat/MessagesChain/MessageLink.ts:164-167 | a node matches exactly when its message has the id |
| MessageLinks.EqualMessage | messenger/classes/Chat/MessagesChain/MessageLink.ts:169-172 | with `flag` a node matches exactly when it holds that message object, without it exactly when it holds another |
| MessageLinks.Equal | messenger/classes/Chat/MessagesChain/MessageLink.ts:174-177 | with `flag` only the node itself matches, without it every other node |
| MessageLinks.BySenderId | messenger/classes/Chat/MessagesChain/MessageLink.ts:179-182 | with `flag` a node matches exactly when its message's sender has the id, without it exactly when the sender is someone else |
| MessageLinks.IsSending | messenger/classes/Chat/MessagesChain/MessageLink.ts:184-187 | a node matches exactly when its message's sending flag equals `flag` |
| MessageLinks.ForDb | messenger/classes/Chat/MessagesChain/MessageLink.ts:189-190 | a node may be stored exactly when its message is neither sending nor failed |
| MessageLinks.IsSelfIs | messenger/classes/Chat/MessagesChain/MessageLink.ts:192-195 | a system message never matches (its `isSelf` is undefined); any other matches exactly when being the user's own message agrees with `flag` |
| MessagesChains.MessagesOf | messenger/classes/Chat/MessagesChain/MessagesChain.ts:8 | the messages of a node array, one per node and in the same order |
| MessagesChains.Views | messenger/classes/Chat/MessagesChain/MessageLink.ts:96-104 | the snapshot the derived getters read has one view per node, in chain order |
| MessagesChains.ViewsNeighbours | messenger/classes/Chat/MessagesChain/MessageLink.ts:109-111 | in a linked chain a node's `prev` is missing exactly for the oldest node and otherwise shows as the next view of the snapshot, and its `next` mirrors that; so `isFirst` read through `prev` is `IsFirst` on the snapshot |
| MessagesChains.Build | messenger/classes/Chat/MessagesChain/MessagesChain.ts:84-96 | the `factory` fold makes one fresh node per message, in the given order, and leaves them linked: distinct, each pointing at its neighbours, the two ends pointing nowhere |
| MessagesChains.JoinRuns | messenger/classes/Chat/MessagesChain/MessagesChain.ts:72-82 | pointing the oldest node of a linked newer run and the newest node of a linked older run at each other makes the concatenation linked |
| MessagesChains.BuildJoined | messenger/classes/Chat/MessagesChain/MessagesChain.ts:19-30 | two runs of fresh nodes for two message lists, joined into one linked chain |
| MessagesChains.SendingOf | messenger/classes/Chat/MessagesChain/MessagesChain.ts:98-106 | `splited.sending` holds only messages being sent, no more than there are messages |
| MessagesChains.SyncOf | messenger/classes/Chat/MessagesChain/MessagesChain.ts:98-106 | `splited.sync` holds only messages not being sent, no more than there are messages |
| MessagesChains.SplitPartition | messenger/classes/Chat/MessagesChain/MessagesChain.ts:98-106 | the two lists of `splited` together hold every message of the chain exactly as often as the chain does |
| MessagesChains.Without | messenger/classes/Chat/MessagesChain/MessagesChain.ts:59 | the filter by identity leaves the node out and makes the array no longer |
| MessagesChains.WithoutAt | messenger/classes/Chat/MessagesChain/MessagesChain.ts:59 | on an array of distinct nodes the filter removes exactly the one position the node is at |
| MessagesChains.NotIn | messenger/classes/Chat/MessagesChain/MessagesChain.ts:59 | filtering out a node that is not in the array changes nothing |
| MessagesChains.NewestAfterCut | messenger/classes/Chat/MessagesChain/MessagesChain.ts:40-60 | after a member of a linked chain is deleted, the newest node is the old newest one or, when that was deleted, its older neighbour |
| MessagesChains.CutLinked | messenger/classes/Chat/MessagesChain/MessagesChain.ts:56-60 | once the two neighbours of a node point at each other, the chain without that node is linked |
| MessagesChains.MessagesChain.constructor | messenger/classes/Chat/MessagesChain/MessagesChain.ts:10-17 | a new chain is linked and holds one fresh node per given message, in order |
| MessagesChains.MessagesChain.First | messenger/classes/Chat/MessagesChain/MessagesChain.ts:35-38 | null exactly for an empty chain, otherwise the oldest node (the array's last) |
| MessagesChains.MessagesChain.Last | messenger/classes/Chat/MessagesChain/MessagesChain.ts:39-42 | null exactly for an empty chain, otherwise the newest node (the array's first) |
| MessagesChains.MessagesChain.Init | messenger/classes/Chat/MessagesChain/MessagesChain.ts:15-17 | the chain is replaced by fresh linked nodes for the given messages, in order |
| MessagesChains.MessagesChain.Update | messenger/classes/Chat/MessagesChain/MessagesChain.ts:19-33 | the new chain is fresh nodes for the messages that were being sent, then fresh nodes for the given messages, and it is linked |
| MessagesChains.MessagesChain.Add | messenger/classes/Chat/MessagesChain/MessagesChain.ts:49-54 | a fresh node for the message becomes the newest, its `prev` the old newest node, and the chain stays linked |
| MessagesChains.MessagesChain.Delete | messenger/classes/Chat/MessagesChain/MessagesChain.ts:56-60 | the node is filtered out, its neighbours point at each other, and a linked chain that held the node stays linked |
| MessagesChains.MessagesChain.AddNextMessages | messenger/classes/Chat/MessagesChain/MessagesChain.ts:62-82 | fresh nodes for the messages go in front of the old chain and the result is linked; the new nodes are returned |
| MessagesChains.MessagesChain.AddPrevMessages | messenger/classes/Chat/MessagesChain/MessagesChain.ts:68-76 | fresh nodes for the messages go after the old chain and the result is linked |
| ChatMessagesModule.NextDivider | messenger/classes/Chat/ChatMessages.ts:45-49 | a null link clears the divider; an existing divider is kept or cleared, never replaced; with no divider a link becomes it exactly when it is not known to be the user's own |
| ChatMessagesModule.FieldsList | messenger/classes/Chat/ChatMessages.ts:52 | the fields of the messages, one per message, in order |
| ChatMessagesModule.IdsOf | messenger/classes/Chat/ChatMessages.ts:52 | the ids, one per message, in order |
| ChatMessagesModule.FreshPrefix | messenger/classes/Chat/ChatMessages.ts:56-62 | the length of the leading run of ids not known before: every id in the run is unknown and the id after it, if any, is known |
| ChatMessagesModule.FreshPrefixUnique | messenger/classes/Chat/ChatMessages.ts:56-62 | any length with those properties is that length |
| ChatMessagesModule.ChatMessages.FreshPrefixLength | messenger/classes/Chat/ChatMessages.ts:54-62 | the `for ... break` loop measures exactly that leading run |
| ChatMessagesModule.OldestFromOther | messenger/classes/Chat/ChatMessages.ts:67 | the index of the oldest node whose `isSelf` is false, with no such node older than it, or -1 |
| ChatMessagesModule.FindById | messenger/classes/Chat/ChatMessages.ts:70 | the first index carrying the id, with none before it, or -1 |
| ChatMessagesModule.Candidate | messenger/classes/Chat/ChatMessages.ts:64-71 | the node offered to `setNew` is null or one of the new nodes |
| ChatMessagesModule.RenewedDivider | messenger/classes/Chat/ChatMessages.ts:51-71 | without a divider it becomes the oldest node from another user within the leading run of unknown ids (or stays absent); an existing divider stays the same node while a new node has its id and is cleared otherwise |
| ChatMessagesModule.ScanFrom | messenger/classes/Chat/ChatMessages.ts:106-140 | a confirmed index lies within the chain |
| ChatMessagesModule.ScanMeaning | messenger/classes/Chat/ChatMessages.ts:106-140 | the message is inserted exactly when no node stops the scan; a forward confirms the newest node forwarding the same message; another message is known when the first stopping node has its id and otherwise confirms that node, which is pending with the same body, attachments and sender |
| ChatMessagesModule.Reverse | messenger/classes/Chat/ChatMessages.ts:237 | the messages in reverse order |
| ChatMessagesModule.NextPage | messenger/classes/Chat/ChatMessages.ts:236-237 | the first message is dropped and the rest reversed |
| ChatMessagesModule.FirstSettled | messenger/classes/Chat/ChatMessages.ts:189 | the index of the newest node whose message is neither sending nor failed, with none newer, or none when there is no such node |
| ChatMessagesModule.MarkEach | messenger/classes/Chat/ChatMessages.ts:196-198 | every message ends in the read state of its old state, however often it occurs |
| ChatMessagesModule.ReadedTwice | messenger/classes/Chat/ChatMessages.ts:196-198 | marking read twice is marking read once |
| ChatMessagesModule.MarkAt | messenger/classes/Chat/ChatMessages.ts:197 | one message is marked read when it is the user's own; no other message changes |
| ChatMessagesModule.ChatMessages.Raw | messenger/classes/Chat/ChatMessages.ts:41-43 | the messages of the chain's nodes, in order |
| ChatMessagesModule.ChatMessages.constructor | messenger/classes/Chat/ChatMessages.ts:12-27 | an empty linked chain, no divider, no more pages and nothing loading |
| ChatMessagesModule.ChatMessages.SetNew | messenger/classes/Chat/ChatMessages.ts:45-49 | the divider becomes what `NextDivider` says; the chain and the flags do not change |
| ChatMessagesModule.ChatMessages.UpdateChain | messenger/classes/Chat/ChatMessages.ts:51-72 | the chain is the pending messages followed by the given ones and stays linked; the divider is renewed from the new nodes; the flags do not change |
| ChatMessagesModule.ChatMessages.Check | messenger/classes/Chat/ChatMessages.ts:106-140 | returns true exactly when the scan inserts; the message the scan confirms takes the pushed id and loses its sending and error marks, and every other message of the chain stays as it was |
| ChatMessagesModule.ChatMessages.Scan | messenger/classes/Chat/ChatMessages.ts:109-139 | the two loops stop with the verdict `ScanFrom` gives |
| ChatMessagesModule.ChatMessages.Add | messenger/classes/Chat/ChatMessages.ts:142-153 | true exactly when the newest page is loaded and the scan inserts; then a fresh node for the message is the newest and offered to `setNew`; otherwise the chain does not change, and with newer pages unloaded only a detached node is offered to `setNew`; with the newest page loaded the message the scan confirms takes the pushed id and loses its sending and error marks, with newer pages unloaded no message changes, and every other message stays as it was |
| ChatMessagesModule.ChatMessages.Offer | messenger/classes/Chat/ChatMessages.ts:150-151 | with newer pages unloaded the chain and the paging state stay; a detached node holding the message becomes the divider exactly when there was none and the message is not the user's own |
| ChatMessagesModule.ChatMessages.AddHard | messenger/classes/Chat/ChatMessages.ts:155-158 | a fresh node for the message becomes the newest, the rest unchanged, and is offered to `setNew` |
| ChatMessagesModule.ChatMessages.AddNext | messenger/classes/Chat/ChatMessages.ts:160-162 | fresh nodes for the messages in front of the unchanged chain, which stays linked |
| ChatMessagesModule.ChatMessages.Remove | messenger/classes/Chat/ChatMessages.ts:164-166 | the node is filtered out, and a linked chain that held it stays linked |
| ChatMessagesModule.ChatMessages.Init | messenger/classes/Chat/ChatMessages.ts:168-170 | the chain holds exactly the given messages and is linked |
| ChatMessagesModule.ChatMessages.ReadTarget | messenger/classes/Chat/ChatMessages.ts:187-194 | nothing while newer pages are not loaded; otherwise the time of the newest settled message (no newer message is settled), present whenever a settled message exists |
| ChatMessagesModule.ChatMessages.MarkReaded | messenger/classes/Chat/ChatMessages.ts:196-198 | every message of the chain ends in the read state of its old state |
| ChatMessagesModule.ChatMessages.BeginGet | messenger/classes/Chat/ChatMessages.ts:75-85 | with no load under way a request for 40 messages around the last-seen time, and the load is marked under way |
| ChatMessagesModule.ChatMessages.FinishGet | messenger/classes/Chat/ChatMessages.ts:86-97 | on success the page's flags are taken and the chain rebuilt as in `updateChain`; on failure the failure is returned and chain, divider and flags stay; either way the load is over |
| ChatMessagesModule.ChatMessages.SetLoaded | messenger/classes/Chat/ChatMessages.ts:86-95 | the page flags are written and the load is over; chain and divider stay |
| ChatMessagesModule.ChatMessages.FinishSurround | messenger/classes/Chat/ChatMessages.ts:172-185 | the flags come from the page and the chain holds exactly its messages |
| ChatMessagesModule.ChatMessages.BeginPrev | messenger/classes/Chat/ChatMessages.ts:201-212 | a request for 20 messages before the oldest node exactly when older pages remain, the chain is not empty and no such load is under way |
| ChatMessagesModule.ChatMessages.FinishPrev | messenger/classes/Chat/ChatMessages.ts:214-218 | the older messages go after the unchanged chain as fresh nodes, `moreBefore` is whether any came, and the chain stays linked |
| ChatMessagesModule.ChatMessages.BeginNext | messenger/classes/Chat/ChatMessages.ts:223-235 | a request for 20 messages after the newest node exactly when newer pages remain, the chain is not empty and no such load is under way |
| ChatMessagesModule.ChatMessages.FinishNext | messenger/classes/Chat/ChatMessages.ts:236-244 | the page without its first message and reversed goes in front of the unchanged chain, `moreAfter` is whether anything remains, and the chain stays linked |
| ChatMessagesModule.ChatMessages.Confirm | messenger/classes/Chat/ChatMessages.ts:113-133 | the message loses its sending and error marks and takes the new id; nothing else about it changes |
| ChatMessagesModule.Confirmed | messenger/classes/Chat/ChatMessages.ts:113-132 | a confirmed message has the pushed id and is neither sending nor failed; every other field and its reactions, uploads and loading flag are as before |
| ChatModule.OtherIndex | messenger/classes/Chat/Chat.ts:82 | the index of the first member who is not the current user, with every member before it the current user, or -1 |
| ChatModule.KeyboardIndex | messenger/classes/Chat/Chat.ts:173-175 | the index of the newest message whose keyboard has buttons, with none newer, or -1 |
| ChatModule.KeyboardOf | messenger/classes/Chat/Chat.ts:170-188 | the keyboard, when shown, belongs to the newest message with buttons, is not hidden and, if one-time, is on the newest message; with no such message there is none; and whenever those conditions hold it is shown |
| ChatModule.ToggleSelected | messenger/classes/Chat/Chat.ts:190-196 | when a selected message has the id, every message with that id leaves the selection; otherwise the message is added |
| ChatModule.ToggleSelectAsWritten | messenger/classes/Chat/Chat.ts:190-196 | as written, the toggled object is selected afterwards exactly when no selected message had its id, and every other object keeps its selection, one with the same id included |
| ChatModule.ToggleSelectAsWrittenKeeps | messenger/classes/Chat/Chat.ts:190-196 | as written, toggling a different object with the id of the selected message leaves the selection as it was |
| ChatModule.ToggleSelectedFlips | messenger/classes/Chat/Chat.ts:190-200 | toggling flips whether the message's id is selected and leaves every other id as it was |
| ChatModule.FilesOfChunks | messenger/classes/Chat/Chat.ts:400-404 | the files of one message per chunk are the chunks joined |
| ChatModule.OutgoingShape | messenger/classes/Chat/Chat.ts:400-419 | `send` makes at least one message; together they carry the files once each and in order, at most ten per message, none empty; only the first carries the text and the quote; with no files there is exactly one |
| ChatModule.SendOutcomeMeaning | messenger/classes/Chat/Chat.ts:269-317 | a send succeeds exactly when its uploads, if any, and the send itself do; success leaves the message settled under the server id; failure keeps the sending mark and the id and records the error; body, sender and reactions never change |
| ChatModule.Chat.constructor | messenger/classes/Chat/Chat.ts:24-70 | a new chat has the record and the user, nothing quoted, forwarded, selected or typed, no resend in flight, and an empty message list |
| ChatModule.Chat.Member | messenger/classes/Chat/Chat.ts:79-84 | none for a group chat; in a dialog, none exactly when every member is the current user, and otherwise a member who is not |
| ChatModule.Chat.IsSaved | messenger/classes/Chat/Chat.ts:86-88 | the saved-messages chat is a dialog in which every member is the current user |
| ChatModule.Chat.Unread | messenger/classes/Chat/Chat.ts:151-153 | zero for the saved-messages chat, the record's count otherwise |
| ChatModule.Chat.SetUnread | messenger/classes/Chat/Chat.ts:155-157 | only the record's unread count changes |
| ChatModule.Chat.Title | messenger/classes/Chat/Chat.ts:98-110 | a group chat's name; in a dialog the other member's trimmed full name when either part is set, else their username, else the saved-messages title |
| ChatModule.Chat.Keyboard | messenger/classes/Chat/Chat.ts:170-188 | the loop returns the keyboard `KeyboardOf` describes |
| ChatModule.Chat.ToggleSelect | messenger/classes/Chat/Chat.ts:190-196 | the selection becomes what `ToggleSelectAsWritten` gives: the message is selected exactly when no selected message had its id, and every other object keeps its selection; nothing else changes |
| ChatModule.Chat.SetSelected | messenger/classes/Chat/Chat.ts:202-204 | exactly the given messages are selected; nothing else changes |
| ChatModule.Chat.CheckSelected | messenger/classes/Chat/Chat.ts:198-200 | an id is selected exactly when some selected message has it |
| ChatModule.Chat.SetQuote | messenger/classes/Chat/Chat.ts:440-444 | the quote is the message and no forward is pending |
| ChatModule.Chat.SetForwarded | messenger/classes/Chat/Chat.ts:432-438 | the forward list is the given one; a list drops the quote, null keeps it; a quote and a forward are never pending together |
| ChatModule.Chat.DelQuote | messenger/classes/Chat/Chat.ts:446-449 | only the quote is cleared |
| ChatModule.Chat.Located | messenger/classes/Chat/Chat.ts:221-245 | null exactly when no message has the id, otherwise a message of the chain with that id |
| ChatModule.Chat.UpdateLastMessage | messenger/classes/Chat/Chat.ts:206-210 | the record's summary becomes the parsed message; the rest of the record stays |
| ChatModule.Chat.UpdateLastSeen | messenger/classes/Chat/Chat.ts:212-215 | only the record's last-seen time changes |
| ChatModule.Chat.UpdateMessage | messenger/classes/Chat/Chat.ts:217-223 | the first message with the id takes over the server copy, keeping its sending, error and upload state |
| ChatModule.Chat.ToggleReactions | messenger/classes/Chat/Chat.ts:225-234 | the first message with the id has its reactions toggled for the user and emoji; nothing else about it changes |
| ChatModule.Chat.MarkDelete | messenger/classes/Chat/Chat.ts:241-247 | the first message with the id is marked deleted with the deleted text; nothing else about it changes |
| ChatModule.Chat.ReadFrom | messenger/classes/Chat/Chat.ts:255-262 | the time is recorded; another user's read marks the current user's messages read and keeps the count; the current user's own read sets the count to zero and touches no message |
| ChatModule.Chat.BeginSend | messenger/classes/Chat/Chat.ts:269-274 | the message is marked sending, its uploads started when it has any, and it becomes the new newest node, offered to `setNew` |
| ChatModule.Chat.MarkOutgoing | messenger/classes/Chat/Chat.ts:272-273 | the message is marked sending and loading exactly when it has uploads, which are all started |
| ChatModule.Chat.FinishSend | messenger/classes/Chat/Chat.ts:276-286 | the message ends in `SendOutcome` of its old state and the returned failure is `SendFailure` |
| ChatModule.Chat.BeginResend | messenger/classes/Chat/Chat.ts:290-298 | when the message failed, is the user's own and no resend is in flight: the resend is marked in flight, the error cleared and the uploads restarted; otherwise nothing changes |
| ChatModule.Chat.FinishResend | messenger/classes/Chat/Chat.ts:298-316 | the flag is cleared and the message ends as a send does; on success its old node is removed and a fresh newest node made for it; on failure the chain stays |
| ChatModule.Chat.Settle | messenger/classes/Chat/Chat.ts:301-314 | the flag is cleared and the send settled; the chain does not change |
| ChatModule.Chat.Requeue | messenger/classes/Chat/Chat.ts:307-308 | the old node goes, a fresh newest node holds the message, and the chain stays linked |
| ChatModule.Chat.Cancel | messenger/classes/Chat/Chat.ts:319-325 | while the message is loading its uploads stop and its node is removed; otherwise the chain stays |
| ChatModule.Chat.Discard | messenger/classes/Chat/Chat.ts:327-336 | a failed message is only removed; one sending and uploading has its uploads stopped and is removed; any other is marked deleted through its id, which is returned for the server |
| ChatModule.Chat.Forget | messenger/classes/Chat/Chat.ts:337-345 | the message leaves the selection, the editor and the quote; nothing else changes |
| ChatModule.Chat.Delete | messenger/classes/Chat/Chat.ts:327-346 | the decision of `Discard`, and afterwards the message is neither selected, being edited nor quoted |
| ChatModule.Chat.SendNewMessage | messenger/classes/Chat/Chat.ts:384-398 | nothing happens exactly when the text is blank and no file is picked; otherwise text, files and quote are cleared and the messages `send` makes from the trimmed text are returned |
| ChatModule.Chat.SetInfo | messenger/classes/Chat/Chat.ts:451-453 | the chat takes the record; selection, quote, forward and draft stay |
| ChatModule.ById | messenger/classes/Chat/Chat.ts:497-500 | a chat matches exactly when its id is the given one |
| ChatModule.ByIds | messenger/classes/Chat/Chat.ts:501-504 | a chat matches exactly when its id is one of the given ids |
| ChatModule.Equal | messenger/classes/Chat/Chat.ts:505-508 | with `flag` only the chat itself matches, without it every other chat |
| ChatModule.ByLastMessage | messenger/classes/Chat/Chat.ts:496 | a chat matches exactly when its record has a last-message summary |
| ChatModule.Chat.HasUnread | messenger/classes/Chat/Chat.ts:147-149 | a chat has unread messages exactly when it is not the saved-messages chat and its record's count is not zero |
| ChatModule.ByUnread | messenger/classes/Chat/Chat.ts:509-512 | with `flag` a chat matches exactly when it is not the saved-messages chat and its unread count is non-zero; without it, exactly the other chats |
| ChatModule.CreateFakeSaved | messenger/classes/Chat/Chat.ts:516-538 | a fresh dialog of the user with themself, id "fake_saved", nothing unread, notifications on: it is the saved-messages chat, titled so |
| Conversations.ConversationInfo.constructor | messenger/classes/Chat/types.ts:4-21 | a record holds exactly the fields it was made with |
| ChatSettingsModule.WithMute | messenger/classes/Chat/ChatSettings.ts:20-22 | a record with notifications keeps them, with sound and vibration unchanged; a missing one stays missing |
| ChatSettingsModule.MuteRoundTrip | messenger/classes/Chat/ChatSettings.ts:11-22 | setting the mute flag and reading it back gives the value set, and setting the old value back restores the notifications |
| ChatSettingsModule.ChatSettings.constructor | messenger/classes/Chat/ChatSettings.ts:7-9 | the settings hold the record they are given |
| ChatSettingsModule.ChatSettings.IsMute | messenger/classes/Chat/ChatSettings.ts:11-18 | muted exactly when notifications are present and disabled |
| ChatSettingsModule.ChatSettings.SetMute | messenger/classes/Chat/ChatSettings.ts:20-22 | fails, changing nothing, exactly when the record has no notifications; otherwise the getter reads back the value set; the rest of the record stays |
| ChatSettingsModule.ChatSettings.SetIsMute | messenger/classes/Chat/ChatSettings.ts:24-29 | the local flag is set first; without notifications the setter throws and no request goes out; otherwise the request carries the room and `enabled` as the opposite of the flag |
| ChatSettingsModule.ChatSettings.ToggleMute | messenger/classes/Chat/ChatSettings.ts:31-33 | the flag flips and the request carries the old flag as `enabled`; without notifications it fails |
| MessageEditors.RollBackRestores | messenger/classes/Message/MessageEditor.ts:40-56 | rolling back an optimistic edit of a message that was not being sent restores exactly its old state |
| MessageEditors.MessageEditor.constructor | messenger/classes/Message/MessageEditor.ts:6-12 | no message is being edited and the input is empty |
| MessageEditors.MessageEditor.SetMessage | messenger/classes/Message/MessageEditor.ts:14-19 | the message becomes the edited one and, when given, its body fills the input |
| MessageEditors.MessageEditor.IsChange | messenger/classes/Message/MessageEditor.ts:21-24 | true exactly when a message is being edited and the input differs from its body |
| MessageEditors.MessageEditor.IsCanDeleteText | messenger/classes/Message/MessageEditor.ts:26-29 | a message without attachments may only be saved with a non-empty input; otherwise, and with no message, always true |
| MessageEditors.MessageEditor.BeginEdit | messenger/classes/Message/MessageEditor.ts:31-44 | an edit that may not be made changes nothing; an uploading message only takes the text and the editor closes; a message not being sent takes the text, is marked sending, the editor closes and the server call is returned; one being sent but not uploading is left alone |
| MessageEditors.MessageEditor.FinishEdit | messenger/classes/Message/MessageEditor.ts:45-56 | success takes the server copy and clears the sending mark; rejection restores the old body, clears the mark and returns the failure |
| MessageEditors.MessageEditor.Edit | messenger/classes/Message/MessageEditor.ts:31-60 | a rejected edit leaves the message exactly as before; an accepted one leaves the server copy, not sending; an edit that does not reach the server never fails |
| MessageSearches.CanNext | messenger/classes/Message/MessageSearch.ts:91-93 | for a cursor on one of the results, a result follows it |
| MessageSearches.CanPrev | messenger/classes/Message/MessageSearch.ts:101-103 | for a cursor on one of the results, a result precedes it |
| MessageSearches.NextIndex | messenger/classes/Message/MessageSearch.ts:91-99 | a valid cursor stays valid after `next`, and an unset one stays unset |
| MessageSearches.PrevIndex | messenger/classes/Message/MessageSearch.ts:101-109 | a valid cursor stays valid after `prev`, for any number of results, and an unset one stays unset |
| MessageSearches.StepsUndo | messenger/classes/Message/MessageSearch.ts:91-109 | on a valid cursor, a possible step forward is undone by a step back, and the other way round |
| MessageSearches.Debounce | messenger/classes/Message/MessageSearch.ts:27-41 | a search is scheduled exactly when the input is not empty |
| MessageSearches.DebounceAsWritten | messenger/classes/Message/MessageSearch.ts:27-41 | as written, a search is scheduled exactly for a non-empty input, which also sets loading; an empty input leaves loading as it was |
| MessageSearches.DebounceAsWrittenStuck | messenger/classes/Message/MessageSearch.ts:27-41 | as written, a keystroke followed by clearing the input leaves the search loading with no search scheduled, so no `FireTimer` step is enabled to clear it |
| MessageSearches.DebounceLoadsWhileScheduled | messenger/classes/Message/MessageSearch.ts:27-41 | as intended, the search is loading exactly when one is scheduled; it schedules as the written one does, and agrees with it on any non-empty input |
| MessageSearches.MessageSearch.constructor | messenger/classes/Message/MessageSearch.ts:13-24 | empty input, no results, empty meta, not loading, closed, no cursor |
| MessageSearches.MessageSearch.OnInput | messenger/classes/Message/MessageSearch.ts:23-41 | the loading and scheduled flags become what `DebounceAsWritten` gives; nothing else changes |
| MessageSearches.MessageSearch.BeginSearch | messenger/classes/Message/MessageSearch.ts:43-52 | a request for 100 results of the input's query on the page, in the room, exactly when the panel is open |
| MessageSearches.MessageSearch.CommitSearch | messenger/classes/Message/MessageSearch.ts:53-64 | a later page is appended and the first page replaces the results; the meta is replaced and the cursor set to the first result or nowhere, so it is valid; a failure changes nothing and is passed on |
| MessageSearches.MessageSearch.Open | messenger/classes/Message/MessageSearch.ts:70-72 | the panel is open; nothing else changes |
| MessageSearches.MessageSearch.Close | messenger/classes/Message/MessageSearch.ts:74-76 | the panel is closed; nothing else changes |
| MessageSearches.MessageSearch.SetIndex | messenger/classes/Message/MessageSearch.ts:79-82 | the cursor is the given value, valid exactly when that value is one |
| MessageSearches.MessageSearch.Active | messenger/classes/Message/MessageSearch.ts:84-89 | none without a cursor or with one past the results, otherwise the result under the cursor |
| MessageSearches.MessageSearch.Next | messenger/classes/Message/MessageSearch.ts:91-99 | the cursor moves one further exactly when it can and stays valid; nothing else changes |
| MessageSearches.MessageSearch.Prev | messenger/classes/Message/MessageSearch.ts:101-109 | the cursor moves one back exactly when it can and stays valid; nothing else changes |
| MessageSearches.MessageSearch.FireTimer | messenger/classes/Message/MessageSearch.ts:32-33 | the scheduled search is no longer pending and `search()` asks for the first page exactly when the panel is open; nothing else changes |
| MessageSearches.MessageSearch.FinishTimer | messenger/classes/Message/MessageSearch.ts:33-36 | a settled search commits the first page as `CommitSearch` does and then clears loading; a rejected one is passed on with the state and the loading flag as they were |
| MessageFinders.MessageFinder.constructor | messenger/classes/Chat/MessageFinder.ts:7-12 | nothing is found yet |
| MessageFinders.MessageFinder.Set | messenger/classes/Chat/MessageFinder.ts:14-17 | the node is stored and returned |
| MessageFinders.MessageFinder.Remove | messenger/classes/Chat/MessageFinder.ts:19-21 | nothing is stored |
| MessageFinders.MessageFinder.CheckIsFinded | messenger/classes/Chat/MessageFinder.ts:34-36 | true exactly for the stored node itself |
| MessageFinders.MessageFinder.Lookup | messenger/classes/Chat/MessageFinder.ts:24-26 | the first node with the id is found and stored exactly when there is one |
| MessageFinders.MessageFinder.Find | messenger/classes/Chat/MessageFinder.ts:23-32 | a message already in the chain is found at once, chain unchanged; otherwise the window around its time is reloaded until a node with its id appears, a reload fails, or the given pages run out, leaving the next reload of 20 around its time; the chain stays linked |
| MessengerStores.IndexOf | messenger/MessengerStore.ts:99-119 | the first index of the element, with none before it, and -1 exactly when it is absent |
| MessengerStores.Others | messenger/MessengerStore.ts:194-219 | the filter leaves the element out and makes the list no longer |
| MessengerStores.OthersMembers | messenger/MessengerStore.ts:194-219 | the filter keeps exactly the elements other than the one filtered out |
| MessengerStores.SplicedCons | messenger/MessengerStore.ts:99-102 | splicing out an element other than the head splices it out of the tail |
| MessengerStores.SplicedIsOthers | messenger/MessengerStore.ts:99-102 | in a list without repeats, splicing the element out is filtering it out |
| MessengerStores.NoOthers | messenger/MessengerStore.ts:194-219 | filtering out an absent element changes nothing |
| MessengerStores.OthersDistinct | messenger/MessengerStore.ts:194-219 | filtering keeps a list without repeats free of repeats |
| MessengerStores.OthersTwice | messenger/MessengerStore.ts:194-219 | filtering twice is filtering once |
| MessengerStores.MoveKeepsBuckets | messenger/MessengerStore.ts:98-126 | a move takes the chat out of one list and into the other, and no chat is then twice in a list or in both |
| MessengerStores.MoveKeepsOthers | messenger/MessengerStore.ts:98-126 | a move leaves every other chat in the list it was in |
| MessengerStores.RollbackToFront | messenger/MessengerStore.ts:108-136 | a move undone by the opposite move restores the other list, but the chat returns to the front of its own list rather than to its old index |
| MessengerStores.ReorderedMeaning | messenger/MessengerStore.ts:190-196 | the chat is first when it is in the list, the other chats keep their relative order, an absent chat changes nothing, and a list without repeats is only permuted |
| MessengerStores.OthersOfFront | messenger/MessengerStore.ts:194 | filtering an element out of a list it heads filters it out of the tail |
| MessengerStores.ToFrontPermutes | messenger/MessengerStore.ts:194 | moving a member of a list without repeats to the front keeps it free of repeats and only permutes it |
| MessengerStores.DistinctCons | messenger/MessengerStore.ts:104-124 | putting a new element in front of a list without repeats keeps it free of repeats |
| MessengerStores.LeaveAsWritten | messenger/MessengerStore.ts:216-224 | as written, the chat leaves both lists; the chat list keeps exactly its other chats; an archive without the chat is kept, and one with it is replaced by exactly the other chats of the chat list |
| MessengerStores.LeaveAsWrittenLosesArchive | messenger/MessengerStore.ts:216-224 | as written, leaving an archived chat replaces the archive by the chat list: other archived chats are lost and every chat is in both lists |
| MessengerStores.LeftMeaning | messenger/MessengerStore.ts:216-224 | as intended, the chat is in neither list afterwards, every other chat stays where it was, and no chat is twice in a list or in both |
| MessengerStores.IndexById | messenger/MessengerStore.ts:199-201 | the index of the first chat with the room id, with none before it, or -1 |
| MessengerStores.FirstById | messenger/MessengerStore.ts:199-201 | null exactly when no chat has the room id, otherwise a chat of the list with it |
| MessengerStores.WithLastMessage | messenger/MessengerStore.ts:83 | the chats kept all have a last message, and every chat with one is kept |
| MessengerStores.IndexSaved | messenger/MessengerStore.ts:52-54 | the index of the first saved-messages chat, with none before it, or -1 |
| MessengerStores.CountedRead | messenger/MessengerStore.ts:265-267 | a read is reported, at the message's time, exactly when the chat is on screen and its newest page is loaded or the message is the user's own |
| MessengerStores.CountedUnread | messenger/MessengerStore.ts:265-276 | zero when the message is reported read, the stored count for the user's own message off screen, and one more than the shown count otherwise |
| MessengerStores.MessengerStore.constructor | messenger/MessengerStore.ts:7-33 | no chats, bots or archive, nothing active or opened, and the list invariant holds |
| MessengerStores.MessengerStore.AllChats | messenger/MessengerStore.ts:44-46 | as many chats as the three lists hold together |
| MessengerStores.MessengerStore.SelfChat | messenger/MessengerStore.ts:52-54 | null exactly when the chat list has no saved-messages chat, otherwise one of them |
| MessengerStores.MessengerStore.FindChat | messenger/MessengerStore.ts:198-201 | the first chat with the id in the chat list, else in the archive, else among the bots; null exactly when no chat has it |
| MessengerStores.MessengerStore.MoveToArchive | messenger/MessengerStore.ts:98-106 | the chat is spliced out of the chat list and put in front of the archive unless there; the invariant holds and the chat ends archived |
| MessengerStores.MessengerStore.MoveToChats | messenger/MessengerStore.ts:118-126 | the mirror: the chat ends in the chat list and out of the archive, and the invariant holds |
| MessengerStores.MessengerStore.ArchiveChat | messenger/MessengerStore.ts:108-116 | for any chat: accepted, the chat is spliced out of the chat list and heads the archive; rejected, those moves are followed by the mirror moves; the failure is passed on and the invariant is kept; for a chat of the chat list, acceptance puts it in front of the old archive and rejection puts it at the front of the chat list with the archive as before |
| MessengerStores.MessengerStore.UnarchiveChat | messenger/MessengerStore.ts:128-136 | the mirror of `ArchiveChat`, from the archive to the chat list, for any chat |
| MessengerStores.MessengerStore.ReorderBy | messenger/MessengerStore.ts:190-196 | the chat list becomes `Reordered` and keeps the invariant; nothing else changes |
| MessengerStores.MessengerStore.LoadChat | messenger/MessengerStore.ts:203-214 | a chat already known takes the record and the lists stay; otherwise a new chat for the record heads the chat list |
| MessengerStores.MessengerStore.LeaveChat | messenger/MessengerStore.ts:216-224 | as written, the two lists become `LeaveAsWritten`: the chat is in neither; the invariant is kept when the chat was not archived |
| MessengerStores.MessengerStore.SavedIndex | messenger/MessengerStore.ts:85 | where the saved chat sits among the chats with a last message, and -1 exactly when there is no saved chat or it has no last message |
| MessengerStores.MessengerStore.Entities | messenger/MessengerStore.ts:80-95 | the saved chat first when it has a last message, else a fresh placeholder saved chat; then all bots; then the other chats with a last message, in order |
| MessengerStores.MessengerStore.ClearOpened | messenger/MessengerStore.ts:139-141 | nothing counts as opened; the lists and the active chat stay |
| MessengerStores.MessengerStore.SetActive | messenger/MessengerStore.ts:156-169 | the chat becomes active and is returned; a chat not yet opened fetches its messages and counts as opened; a chat given reports its read time |
| MessengerStores.MessengerStore.Open | messenger/MessengerStore.ts:158-162 | the chat counts as opened; its fetch starts only on the first opening |
| MessengerStores.MessengerStore.RefreshActive | messenger/MessengerStore.ts:143-148 | an active chat with its newest page loaded refetches and counts as opened; otherwise nothing happens |
| MessengerStores.MessengerStore.Receive | messenger/MessengerStore.ts:262-301 | the chat's summary becomes the message's and its unread count what `CountedUnread` says; the message is added to its history as `add` says, the message the scan confirms taking the pushed id and losing its sending and error marks and every other message staying as it was |
| MessengerStores.MessengerStore.Count | messenger/MessengerStore.ts:262-276 | the summary is set and the unread count and read report are those `CountedUnread` and `CountedRead` give |
| MessengerStores.MessengerStore.AddMessageToChat | messenger/MessengerStore.ts:259-302 | the chat moves to the front of the chat list, which keeps the invariant, and receives the message as `Receive` states: summary, unread count, read report, insertion and the confirmed message |
| MessengerStores.MessengerStore.Promote | messenger/MessengerStore.ts:319-321 | an archived chat that took the message moves to the chat list unless it is muted |
| MessengerStores.MessengerStore.ArriveInArchive | messenger/MessengerStore.ts:317-324 | the message is inserted exactly when the newest page is loaded and `ScanFrom` gives the insert verdict, and otherwise the chain stays; the unread count and the time reported read follow `CountedUnread` and `CountedRead`; the archived chat heads the chat list, out of the archive, exactly when the message was inserted and the chat is not muted; only the message the scan confirms changes |
| MessengerStores.MessengerStore.RouteKnown | messenger/MessengerStore.ts:310-331 | the message goes to the first chat with the room in the chat list, the archive or the bots, in that order, with the list moves each arm makes; in every arm it is inserted exactly when the newest page is loaded and `ScanFrom` gives the insert verdict, the counting follows `CountedUnread` and `CountedRead`, and only the message the scan confirms changes, taking the pushed id and losing its sending and error marks |
| MessengerStores.MessengerStore.BeginRoomUpdate | messenger/MessengerStore.ts:308-331 | a chat that has the room takes the message as `RouteKnown` states (list moves per arm, insertion exactly on a loaded newest page and an insert verdict, summary and counting, and only the message the scan confirms changing) and is returned; with no such chat nothing changes and no chat is returned |
| MessengerStores.MessengerStore.FinishRoomUpdate | messenger/MessengerStore.ts:203-214 | after the await, a chat that has the room by then takes the fetched record and the message as `addMessageToChat` says, moving to the front of the chat list, with no move out of the archive; otherwise a new chat for the record heads the chat list and holds the message as its only node |
| MessengerStores.MessengerStore.FinishKnown | messenger/MessengerStore.ts:206-209 | the found chat holds the fetched record, counted as `CountedUnread` and `CountedRead` say, moves to the front of the chat list, and takes the message as `add` states |
| MessengerStores.MessengerStore.Retake | messenger/MessengerStore.ts:206-209 | the chat holds the fetched record with the message's summary and the counted unread number, and moves to the front of the chat list |
| MessengerStores.MessengerStore.FinishFresh | messenger/MessengerStore.ts:211-213 | a new chat for the fetched record heads the chat list and holds the message as its only node, reported as inserted and not read |
| MessengerStores.MessengerStore.HandleMessageRead | messenger/MessengerStore.ts:339-341 | the chat with the room, if any, takes the read as `readFrom` says |
| MessengerStores.MessengerStore.HandleMessageEdit | messenger/MessengerStore.ts:343-345 | the chat with the room, if any, takes the edit as `updateMessage` says |
| MessengerStores.MessengerStore.HandleMessageDelete | messenger/MessengerStore.ts:347-349 | the chat with the room, if any, marks the message deleted |
| MessengerStores.MessengerStore.HandleMessageEmotion | messenger/MessengerStore.ts:351-353 | the chat with the room, if any, toggles the user's emotion on the message |
| Reactions.IndexOfUser | messenger/classes/Message/Message.ts:203 | the first aggregate holding the user, with none before it, or -1 exactly when none holds them |
| Reactions.IndexOfEmoji | messenger/classes/Message/Message.ts:204 | the first aggregate of the emoji, with none before it, or -1 exactly when there is none |
| Reactions.RemoveAt | messenger/classes/Message/Message.ts:210 | splicing one aggregate out keeps the ones before it and shifts the ones after it down by one |
| Reactions.WithoutAtSound | messenger/classes/Message/Message.ts:214-216 | removing a user from one aggregate keeps each emoji once, each user once per aggregate and in at most one aggregate |
| Reactions.ToggleAtSound | messenger/classes/Message/Message.ts:217 | toggling in an aggregate a user who is in none keeps that invariant |
| Reactions.AppendSound | messenger/classes/Message/Message.ts:211 | pushing a new aggregate for a new emoji and a user who is in none keeps that invariant |
| Reactions.RemoveAtSound | messenger/classes/Message/Message.ts:210 | splicing out an aggregate keeps that invariant |
| Reactions.OnlyHolder | messenger/classes/Message/Message.ts:203 | when no user is in two aggregates, the aggregate found first is the only one holding the user |
| Reactions.OnlyEmoji | messenger/classes/Message/Message.ts:204 | when each emoji occurs once, the aggregate found first is its only one |
| Reactions.RemoveEmpty | messenger/classes/Message/Message.ts:219-224 | dropping an empty aggregate changes nobody's reactions and keeps the invariant |
| Reactions.RemovePreserves | messenger/classes/Message/Message.ts:219-224 | dropping an empty aggregate keeps each user's reaction with each emoji |
| Reactions.PruneEffect | messenger/classes/Message/Message.ts:219-224 | the clean-up drops only empty aggregates: nobody's reactions change and the invariant is kept |
| Reactions.LeaveEffect | messenger/classes/Message/Message.ts:216 | leaving touches only the user's membership of the aggregate they were in |
| Reactions.JoinEffect | messenger/classes/Message/Message.ts:217 | for a user in no aggregate, joining puts them in exactly the aggregate of the emoji, created at the end when missing |
| Reactions.WithoutAtEffect | messenger/classes/Message/Message.ts:214 | taking the user out of their only aggregate leaves them in none and every other user's reactions alone |
| Reactions.ToggleWellFormed | messenger/classes/Message/Message.ts:202-226 | `toggleReactions` keeps the invariant: each emoji once, no empty aggregate, each user in at most one aggregate and at most once |
| Reactions.RetractWellFormed | messenger/classes/Message/Message.ts:213-214 | taking back the user's own reaction keeps the invariant |
| Reactions.MoveWellFormed | messenger/classes/Message/Message.ts:215-225 | leaving the old aggregate and joining the emoji's keeps the invariant |
| Reactions.ToggleOthers | messenger/classes/Message/Message.ts:202-226 | a toggle by one user changes no other user's reactions |
| Reactions.ToggleSelf | messenger/classes/Message/Message.ts:202-226 | after the toggle the user has reacted with exactly the toggled emoji when they had not before, and with nothing when they had |
| Reactions.ToggleThenOther | messenger/classes/Message/Message.ts:202-226 | reacting with one emoji and then with another leaves the user with the second only |
| Reactions.ToggleTwice | messenger/classes/Message/Message.ts:202-226 | toggling the same emoji twice, from no reaction of the user, restores the aggregates exactly |
| Reactions.ToggleTwiceExisting | messenger/classes/Message/Message.ts:213-217 | undoing a join of an existing aggregate restores the aggregates |
| Reactions.ToggleTwiceNew | messenger/classes/Message/Message.ts:211-214 | undoing the push of a new aggregate restores the aggregates |
| Text.IntToString | messenger/classes/Message/SplitedAttachments.ts:39 | the decimal rendering of a number is never empty |
| Text.TrimStart | messenger/classes/Chat/Chat.ts:391 | the longest suffix that does not start with whitespace; everything cut was whitespace |
| Text.TrimEnd | messenger/classes/Chat/Chat.ts:391 | the longest prefix that does not end with whitespace; everything cut was whitespace |
| Text.TrimBlank | messenger/classes/Chat/Chat.ts:391-392 | a text trims to empty exactly when every character of it is whitespace |

## Left out

- The network: every HTTP call of the API client, the static request methods of `Message`, `ChatMessages` and `Emotion`, and the chat API, chat editor and pinned-message wrappers. Requests are returned as values and awaited answers are parameters.
- The upload transport (`Request`, using fetch and XHR) and `FileIDocument` (browser files and object URLs). An upload is an object whose awaited result is a parameter and may fail.
- Socket wiring, authentication reactions, reconnect sequencing in `MainStore`, and mobx reactivity (`makeAutoObservable`, `runInAction`, `reaction`). Each committed `runInAction` block is one atomic step, and `Promise.all` interleavings are not modelled.
- Timers: the `setTimeout` of `MessageSearch.debounceSearch` is not modelled as time. The debounce is three steps: the input arrives (`OnInput`, as written, which also stands for `clearTimeout`), the timer fires (`FireTimer`, which needs a scheduled search) and the search settles (`FinishTimer`). A search that rejects leaves loading set, as written (see Findings for the empty input).
- moment formatting: `Message.time`/`timestamp`/`fromNow`/`sortByCreatedAt`, `MessageLink.date`/`calendar`, `LastMessage.date`, and `User.formatDate`/`getLastActive`. A timestamp is an `int`, and the calendar day of a timestamp is a parameter `dayOf`.
- Clocks: the current time (`now`) is a parameter wherever the source reads the clock.
- Floats and randomness: `Loader.percents` (floating-point percentages) and `MembersColor` (random colours).
- The emoji sort catalog `Emotion.aliases`/`byAliases`. It only orders reactions for display, so `listBy` keeps the server's order.
- UI-only state: the reactions menu, React refs, `MessageLink.onScreen`, and `Chat.subtitle`/`avatar`/`photo`/status.
- `Chat.byTitle` is not modelled, because it lowercases (there is no case folding on `seq<char>`).
- The system-message body triggers of `MessengerStore` (messenger/MessengerStore.ts:278-300) are not modelled. They only issue refresh fetches.
- Other effects not modelled as state changes: the `chat.messages.read` request after `get`, `pin.get`, and the member refresh in `setActive`. These are network requests whose results the model does not need.
- Storage recording (`storage?.record*`) is not modelled; it writes to local storage only.
- `sendForwarded`, `sendByAttach`, `createDialog`, `createChat` and `getChats` are not modelled. Each is a network call followed by steps the model already has (`send`, `loadChat`).
- `selectMessage`, `forvardSelectedTo` and `unreadChats` of the store are not modelled. They are UI dispatch over the operations that are.
- `setVisibleArchiveAlertInfo` and the alert flags are not modelled; they are presentation state only.
- The `configure` error handler of the API client is not modelled. It is a callback into UI code.
- `getDeclension`, `guid`, `List` and `InputHandler` come from a utilities package that is not part of this model. `getDeclension` is taken to be the usual Russian plural rule (one, few, many). The input handler is a plain string value.
- ChatModule.Chat.FinishResend requires the resent node to still be in the chain. While `resend` awaits the send, a `get()` (through `updateChain` and `MessagesChain.update`) can rebuild the chain with a new node for the still-sending message, or `surround` (through `init`) can drop the node. The source then removes nothing with `remove(link)`, and `addHard` adds one more node, so the message can end up in two nodes. That run is not modelled.
- Messages.Message.FinishUploads requires the uploads of a message to be distinct objects, as `createByFiles` builds them. Messages.LoadAll has the same requirement.
- Attachments.Split requires a positive chunk size. The source only ever calls it with 10.
- MessengerStores.MessengerStore.Entities and ChatModule.CreateFakeSaved require a signed-in user. The source reads it as `user.info!`, a TypeScript non-null assertion with no run-time check: without a user it would build a placeholder chat whose members are `undefined`, which the model does not represent. Entities requires the user even when a saved chat exists and no placeholder is built.
- MessengerStores.MessengerStore.AddMessageToChat adds the message first, then counts it, then reorders the chat. The source reorders, counts, then adds. Nothing in between reads what the others write, so the final state is the same. MessengerStores.MessengerStore.ArriveInArchive receives the message without the reorder, which does nothing for a chat that is not in the chat list. MessengerStores.MessengerStore.FinishKnown adds the message before the chat takes the fetched record (`setInfo`), where the source swaps the record first; adding reads only the chat's user and message list, which `setInfo` does not change.
- MessengerStores.MessengerStore.BeginRoomUpdate takes the message already built from the pushed data (`new Message(data.message)`, the first line of `handleRoomUpdate`); the constructor states what it holds.
- MessengerStores.MessengerStore.LeaveChat models the state after the server has accepted the leave. The request itself is the network.
- MessengerStores.MessengerStore.LeaveChat keeps the store invariant only when the chat was not archived. As written, leaving an archived chat breaks it (see Findings).
- Messages.Message.ShortBody counts the body in Unicode characters. The source's `length` and `substring(0, 40)` count UTF-16 code units, so a character above U+FFFF counts twice there: a body of 30 "😀" is cut after 20 of them by the source and kept whole by the model.
- ChatModule.Chat.SetInfo: `ChatSettings` keeps the original conversation record after `setInfo` replaces the chat's info. This is modelled as written.
- `prev`/`next` of `ChatMessages` have no error path. When the fetch rejects, their loading flag stays set; the model has no Finish step for a rejected fetch.
- `MessageFinder.find` recurses over pages fetched one by one. The model takes the pages as a finite list, so a search that never finds the message stops when the list ends.
- MessageLinks.ViewOf: the derived getters of a link read a value snapshot of the chain (`MessagesChains.Views`) rather than following the `prev`/`next` objects. MessagesChains.ViewsNeighbours proves that in a linked chain the snapshot's neighbours are the node's own `prev` and `next`.
- ChatMessagesModule.ChatMessages.MarkReaded marks the user's own messages read (`isSelf`), as written.

## Findings

| source | as written | input that shows it | evidently intended | confidence | as-written member | corrected member |
|---|---|---|---|---|---|---|
| messenger/classes/Message/MessageSearch.ts:39 | on an empty input, `this.loading === false` compares instead of assigning, so the flag keeps its value | type "a" (loading becomes true and a search is scheduled), then clear the input before the delay: the timer is cleared, and loading stays true with nothing scheduled to reset it | an empty input clears the loading flag, so that loading holds exactly while a search is scheduled | high; not executed | MessageSearches.DebounceAsWrittenStuck | MessageSearches.Debounce, MessageSearches.DebounceLoadsWhileScheduled |
| messenger/classes/Chat/Chat.ts:190-196 | `toggleSelect` tests membership by id (`selectedIDs`) but deletes by object identity (`selected.delete`) | select message a, then toggle a different object b with the same id (a copy reloaded from the server): nothing is deleted and the id stays selected | toggling removes every selected message with that id, so the id's selection flips | medium; not executed | ChatModule.ToggleSelectAsWrittenKeeps | ChatModule.ToggleSelected, ChatModule.ToggleSelectedFlips |
| messenger/MessengerStore.ts:222 | `leaveChat` sets `archive` to `this.chats.filter(...)` | chats [c1, c2], archive [c3, c4], leave c3: archive becomes [c1, c2], c4 is lost and c1, c2 are in both lists | `archive` becomes the archive without the chat | high; not executed | MessengerStores.LeaveAsWrittenLosesArchive | MessengerStores.LeftMeaning |
