/** ChatRoom and the three queries of ChatRoomRepository over the chat_room rows. */
module Chat {
  import opened Outcomes

  /** ChatRoom: one row per direction of a conversation. */
  datatype ChatRoom = ChatRoom(id: int, chatId: string, senderId: string, recipientId: string) {
    /** isParticipant. */
    predicate IsParticipant(userId: string): (b: bool)
      ensures userId == senderId ==> b
      ensures userId == recipientId ==> b
      ensures b ==> userId == senderId || userId == recipientId
    {
      senderId == userId || recipientId == userId
    }
  }

  /** Both ends take part, nobody else does, and neither the direction nor the
      chat id matters. */
  lemma ParticipantsAreTheTwoEnds(room: ChatRoom, x: string, otherChatId: string)
    ensures room.IsParticipant(room.senderId) && room.IsParticipant(room.recipientId)
    ensures x != room.senderId && x != room.recipientId ==> !room.IsParticipant(x)
    ensures room.IsParticipant(x) ==
      room.(senderId := room.recipientId, recipientId := room.senderId).IsParticipant(x)
    ensures room.IsParticipant(x) == room.(chatId := otherChatId).IsParticipant(x)
  {
  }

  /** findBySenderIdAndRecipientId: the row in this direction. */
  function FindBySenderIdAndRecipientId(rows: seq<ChatRoom>, senderId: string, recipientId: string): (r: Option<ChatRoom>)
    ensures r.Some? ==> r.value in rows && r.value.senderId == senderId && r.value.recipientId == recipientId
    ensures r.None? ==> forall c :: c in rows ==> !(c.senderId == senderId && c.recipientId == recipientId)
    decreases |rows|
  {
    if rows == [] then None
    else if rows[0].senderId == senderId && rows[0].recipientId == recipientId then Some(rows[0])
    else FindBySenderIdAndRecipientId(rows[1..], senderId, recipientId)
  }

  /** The recipients of the rows sent by `senderId`, in row order. */
  function RecipientsOf(rows: seq<ChatRoom>, senderId: string): (r: seq<string>)
    ensures |r| <= |rows|
    ensures forall x :: x in r <==> exists c :: c in rows && c.senderId == senderId && c.recipientId == x
    decreases |rows|
  {
    if rows == [] then []
    else
      assert forall c :: c in rows <==> c == rows[0] || c in rows[1..];
      (if rows[0].senderId == senderId then [rows[0].recipientId] else []) + RecipientsOf(rows[1..], senderId)
  }

  /** SELECT DISTINCT: each value once, at its first occurrence. */
  function Distinct(s: seq<string>): (r: seq<string>)
    ensures forall x :: x in r <==> x in s
    ensures forall i, j :: 0 <= i < j < |r| ==> r[i] != r[j]
    ensures |r| <= |s|
    decreases |s|
  {
    if s == [] then []
    else
      var r := Distinct(s[..|s| - 1]);
      assert forall x :: x in s <==> x in s[..|s| - 1] || x == s[|s| - 1];
      if s[|s| - 1] in r then r else r + [s[|s| - 1]]
  }

  /** findUniqueRecipientsBySenderId. */
  function FindUniqueRecipientsBySenderId(rows: seq<ChatRoom>, senderId: string): (r: seq<string>)
    ensures |r| <= |rows|
    ensures forall x :: x in r ==> ExistsBySenderAndRecipient(rows, senderId, x)
  {
    Distinct(RecipientsOf(rows, senderId))
  }

  /** existsBySenderAndRecipient: a row in either direction. */
  predicate ExistsBySenderAndRecipient(rows: seq<ChatRoom>, senderId: string, recipientId: string): (b: bool)
    ensures senderId != recipientId ==>
      (b <==> exists c :: c in rows && c.IsParticipant(senderId) && c.IsParticipant(recipientId))
  {
    exists c :: c in rows &&
      ((c.senderId == senderId && c.recipientId == recipientId) || (c.senderId == recipientId && c.recipientId == senderId))
  }

  /** The existence check holds iff a directional lookup succeeds one way or the
      other, and so does not depend on the order of its arguments. */
  lemma ExistsIsSymmetric(rows: seq<ChatRoom>, a: string, b: string)
    ensures ExistsBySenderAndRecipient(rows, a, b) <==>
      FindBySenderIdAndRecipientId(rows, a, b).Some? || FindBySenderIdAndRecipientId(rows, b, a).Some?
    ensures ExistsBySenderAndRecipient(rows, a, b) == ExistsBySenderAndRecipient(rows, b, a)
  {
  }

  /** The lookup is directional: a single row (b, a) makes the pair exist but
      does not answer the lookup (a, b). */
  lemma LookupIsDirectional(room: ChatRoom, a: string, b: string)
    requires a != b && room.senderId == b && room.recipientId == a
    ensures ExistsBySenderAndRecipient([room], a, b)
    ensures FindBySenderIdAndRecipientId([room], a, b) == None
    ensures FindBySenderIdAndRecipientId([room], b, a) == Some(room)
  {
    assert room in [room];
  }

  /** The unique recipients are those of rows sent by that sender, each once. */
  lemma UniqueRecipientsExact(rows: seq<ChatRoom>, senderId: string)
    ensures forall x :: x in FindUniqueRecipientsBySenderId(rows, senderId) <==>
      exists c :: c in rows && c.senderId == senderId && c.recipientId == x
    ensures forall i, j :: 0 <= i < j < |FindUniqueRecipientsBySenderId(rows, senderId)| ==>
      FindUniqueRecipientsBySenderId(rows, senderId)[i] != FindUniqueRecipientsBySenderId(rows, senderId)[j]
  {
  }
}
