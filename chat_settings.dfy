/** The mute switch of a conversation (messenger/classes/Chat/ChatSettings.ts). */
module ChatSettingsModule {
  import opened Wrappers
  import opened Conversations

  /** The body of `updateSettings`: the room and the flag sent to the server. */
  datatype SettingsRequest = SettingsRequest(roomId: string, enabled: bool)

  /** The `isMute` getter on a notifications value: off when present and disabled. */
  function MuteOf(n: Option<Notifications>): bool {
    n.Some? && !n.value.enabled
  }

  /** The `isMute` setter on a notifications value; there is nothing to set on a missing one. */
  function WithMute(n: Option<Notifications>, value: bool): (r: Option<Notifications>)
    ensures r.Some? <==> n.Some?
    ensures n.Some? ==> r.value.sound == n.value.sound && r.value.vibration == n.value.vibration
  {
    if n.Some? then Some(n.value.(enabled := !value)) else None
  }

  /** Setting the flag and reading it back gives the value set; setting it back restores the object. */
  lemma MuteRoundTrip(n: Option<Notifications>, value: bool)
    requires n.Some?
    ensures MuteOf(WithMute(n, value)) == value
    ensures WithMute(WithMute(n, !MuteOf(n)), MuteOf(n)) == n
  {
  }

  /** The failure of writing a property of an undefined `notifications`. */
  const MissingNotifications := Failure("notifications is undefined")

  class ChatSettings {
    /** The conversation record shared with the chat that created these settings. */
    const chatInfo: ConversationInfo

    constructor (chatInfo: ConversationInfo)
      ensures this.chatInfo == chatInfo
    {
      this.chatInfo := chatInfo;
    }

    /** The `isMute` getter. */
    function IsMute(): (r: bool)
      reads chatInfo
      ensures r <==> chatInfo.notifications.Some? && !chatInfo.notifications.value.enabled
    {
      MuteOf(chatInfo.notifications)
    }

    /**
     * The `isMute` setter: `enabled` becomes the opposite of `value`, so the getter reads back
     * `value`; writing through a missing notifications object throws and changes nothing.
     */
    method SetMute(value: bool) returns (failure: Option<Failure>)
      modifies chatInfo
      ensures failure.Some? <==> old(chatInfo.notifications).None?
      ensures chatInfo.notifications == WithMute(old(chatInfo.notifications), value)
      ensures failure.None? ==> IsMute() == value
      ensures chatInfo.members == old(chatInfo.members) && chatInfo.unread == old(chatInfo.unread)
      ensures chatInfo.lastSeen == old(chatInfo.lastSeen) && chatInfo.lastMessage == old(chatInfo.lastMessage)
      ensures chatInfo.name == old(chatInfo.name) && chatInfo.botChat == old(chatInfo.botChat)
    {
      if chatInfo.notifications.None? {
        return Some(MissingNotifications);
      }
      MuteRoundTrip(chatInfo.notifications, value);
      chatInfo.notifications := WithMute(chatInfo.notifications, value);
      failure := None;
    }

    /**
     * `setIsMute(isMute)`: the local flag is set first, then the settings request carrying
     * `enabled = !isMute` is issued; a throwing setter issues no request.
     */
    method SetIsMute(isMute: bool) returns (request: Result<SettingsRequest>)
      modifies chatInfo
      ensures request.Err? <==> old(chatInfo.notifications).None?
      ensures request.Ok? ==> request.value == SettingsRequest(chatInfo.id, !isMute) && IsMute() == isMute
      ensures chatInfo.notifications == WithMute(old(chatInfo.notifications), isMute)
      ensures chatInfo.members == old(chatInfo.members) && chatInfo.unread == old(chatInfo.unread)
      ensures chatInfo.lastSeen == old(chatInfo.lastSeen) && chatInfo.lastMessage == old(chatInfo.lastMessage)
      ensures chatInfo.name == old(chatInfo.name) && chatInfo.botChat == old(chatInfo.botChat)
    {
      var failure := SetMute(isMute);
      if failure.Some? {
        return Err(failure.value);
      }
      request := Ok(SettingsRequest(chatInfo.id, !isMute));
    }

    /** `toggleMute`: the flag flips; with no notifications the setter throws. */
    method ToggleMute() returns (request: Result<SettingsRequest>)
      modifies chatInfo
      ensures request.Err? <==> old(chatInfo.notifications).None?
      ensures request.Ok? ==> IsMute() == !old(IsMute()) && request.value == SettingsRequest(chatInfo.id, old(IsMute()))
      ensures chatInfo.notifications == WithMute(old(chatInfo.notifications), !old(IsMute()))
      ensures chatInfo.members == old(chatInfo.members) && chatInfo.unread == old(chatInfo.unread)
      ensures chatInfo.lastSeen == old(chatInfo.lastSeen) && chatInfo.lastMessage == old(chatInfo.lastMessage)
      ensures chatInfo.name == old(chatInfo.name) && chatInfo.botChat == old(chatInfo.botChat)
    {
      request := SetIsMute(!IsMute());
    }
  }
}
