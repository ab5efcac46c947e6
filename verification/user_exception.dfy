/** `FactoBot.Exceptions.UserException`: an exception that carries, besides
    its console `Message`, a friendly text for the chat user and an optional
    reaction emoji. A null reference is `None`. */
module UserExceptions {
  import opened Wrappers

  /** The reaction used for a generic failure (U+1F622, crying face). */
  const EmojiCry: string := "\U{1F622}"
  /** The reaction used for a bad argument count (U+1F914, thinking face). */
  const EmojiPuzzled: string := "\U{1F914}"

  datatype UserException = UserException(
    message: string,
    userFriendlyMessage: Option<string>,
    emoji: Option<string>)

  /** The constructor: `consoleMessage` goes to the base `Exception` as its
      `Message`; the emoji parameter defaults to null. */
  function NewUserException(consoleMessage: string, userFriendlyMessage: Option<string>,
                            emojiReaction: Option<string> := None): (e: UserException)
    ensures e.message == consoleMessage
    ensures e.userFriendlyMessage == userFriendlyMessage
    ensures e.emoji == emojiReaction
  {
    UserException(consoleMessage, userFriendlyMessage, emojiReaction)
  }

  /** Leaving out the third argument gives an exception without a reaction. */
  lemma OmittedEmojiIsNull(consoleMessage: string, userFriendlyMessage: Option<string>)
    ensures NewUserException(consoleMessage, userFriendlyMessage).emoji.None?
    ensures NewUserException(consoleMessage, userFriendlyMessage) == NewUserException(consoleMessage, userFriendlyMessage, None)
  {
  }

  /** The two canonical reactions are distinct and non-empty (non-null). */
  lemma EmojiConstantsDistinct()
    ensures EmojiCry != EmojiPuzzled
    ensures EmojiCry != "" && EmojiPuzzled != ""
  {
  }
}
