/**
 * A conversation's server record, `IConversation` (messenger/classes/Chat/types.ts): one
 * mutable object that a chat and its settings both hold and update in place.
 */
module Conversations {
  import opened Wrappers
  import opened Users
  import opened LastMessages

  /** `settings.notifications`. */
  datatype Notifications = Notifications(enabled: bool, sound: bool, vibration: bool)

  /** The fields of `IConversation` the engine reads or writes; timestamps are kept as given. */
  class ConversationInfo {
    const id: string
    const kind: RoomType
    var members: seq<Person>
    var unread: int
    var lastSeen: string
    var lastMessage: Option<LastMessage>
    var notifications: Option<Notifications>
    var name: Option<string>
    var botChat: bool

    constructor (id: string, kind: RoomType, members: seq<Person>, unread: int, lastSeen: string,
                 lastMessage: Option<LastMessage>, notifications: Option<Notifications>,
                 name: Option<string>, botChat: bool)
      ensures this.id == id && this.kind == kind && this.members == members && this.unread == unread
      ensures this.lastSeen == lastSeen && this.lastMessage == lastMessage
      ensures this.notifications == notifications && this.name == name && this.botChat == botChat
    {
      this.id := id;
      this.kind := kind;
      this.members := members;
      this.unread := unread;
      this.lastSeen := lastSeen;
      this.lastMessage := lastMessage;
      this.notifications := notifications;
      this.name := name;
      this.botChat := botChat;
    }
  }
}
