/** The Chat schema (`models/Chat.js`): one message between two users. The
    conversation id is a plain text with no constraint of its own. */
module ChatModel {
  import opened Wrappers
  import opened Docs

  datatype Chat = Chat(
    conversationId: string,
    senderId: Id,
    receiverId: Id,
    bookingId: Option<Id>,
    message: string,
    isRead: bool,
    readAt: Option<int>)
}
