/** What a session publishes: the room status, the connection it advertises, and the
    document that the session directory stores. Encoding is injective, so a document
    is represented by the values it encodes. */
module Publication {

  datatype BroadcastSetting = Unset | InviteOnly | FriendsOnly | FriendsOfFriends

  datatype Joinability = JoinableByInvite | Joinable(kind: string)

  /** The connection entry that names one signaling connection. */
  datatype Connection = Connection(signaling: nat)

  /** `rest` stands for the status fields that the announcer passes through. */
  datatype Status = Status(
    broadcast: BroadcastSetting,
    joinability: Joinability,
    connections: seq<Connection>,
    rest: string)

  const NO_STATUS := Status(Unset, Joinable(""), [], "")

  /** `marshalStatusWithNonces`. */
  datatype Document = Document(status: Status, nonces: map<string, string>)

  function Hidden(status: Status): Status {
    status.(broadcast := InviteOnly, joinability := JoinableByInvite)
  }

  predicate IsHidden(d: Document) { d.status.broadcast == InviteOnly && d.status.joinability == JoinableByInvite }
}
