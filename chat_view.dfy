/**
 * The parts of a ChatView the registry uses: its name, the channels it
 * shows, whether it is exclusive, its message style and its unread flag.
 * Which texts a view accepts (`messageMatches`) is left to the caller of
 * the registry as an uninterpreted predicate.
 */
module ChatViews {

  /** The channels of ChatManager; any other channel is named. */
  datatype ChatChannel = MainChannel | InteractionChannel | SystemChannel | DeathChannel | OtherChannel(id: string)

  datatype MessageStyle = Chat | Side | Bottom

  class ChatView {
    var name: string
    var channels: set<ChatChannel>
    var exclusive: bool
    var style: MessageStyle
    var unread: bool

    /** `new ChatView(name)`: no channels, not exclusive, the Chat style, nothing unread. */
    constructor (name: string)
      ensures this.name == name && channels == {} && !exclusive && style == Chat && !unread
    {
      this.name := name;
      channels := {};
      exclusive := false;
      style := Chat;
      unread := false;
    }

    method AddChannel(channel: ChatChannel)
      modifies this`channels
      ensures channels == old(channels) + {channel}
    {
      channels := channels + {channel};
    }

    method SetMessageStyle(style: MessageStyle)
      modifies this`style
      ensures this.style == style
    {
      this.style := style;
    }

    method SetExclusive(exclusive: bool)
      modifies this`exclusive
      ensures this.exclusive == exclusive
    {
      this.exclusive := exclusive;
    }
  }
}
