/** Helpers over Telegram messages: the link to an archived message and the
    unique id of the file a message carries. */
module TelegramUtil {
  import opened Wrappers
  import Text

  // ----- build_archive_link -------------------------------------------------

  const TmePrefix := "https://t.me/"

  /** `build_archive_link(archive_chat_id, message_id, username)`: nothing for
      a zero chat or message id; the public link when the channel has a
      (non-empty) username; otherwise the private `t.me/c` link, whose chat
      part is the chat id's decimal text with its first `-100` removed. */
  function BuildArchiveLink(archiveChatId: int, messageId: int, username: Option<string>): (r: Option<string>)
    ensures r.None? <==> archiveChatId == 0 || messageId == 0
    ensures r.Some? ==> TmePrefix <= r.value
    ensures r.Some? ==> (var tail := "/" + Text.IntToString(messageId); |r.value| > |tail| && r.value[|r.value| - |tail|..] == tail)
  {
    if archiveChatId == 0 || messageId == 0 then None
    else
      var tail := "/" + Text.IntToString(messageId);
      var middle := if username.Some? && username.value != "" then username.value
                    else "c/" + Text.ReplaceFirst(Text.IntToString(archiveChatId), "-100", "");
      var link := TmePrefix + middle + tail;
      assert link[|link| - |tail|..] == tail;
      Some(link)
  }

  /** With a username the link names the channel and the message. */
  lemma PublicLink(archiveChatId: int, messageId: int, username: string)
    requires archiveChatId != 0 && messageId != 0 && username != ""
    ensures BuildArchiveLink(archiveChatId, messageId, Some(username))
      == Some("https://t.me/" + username + "/" + Text.IntToString(messageId))
  {
    var digits := Text.IntToString(messageId);
    assert "https://t.me/" + username + "/" + digits == TmePrefix + username + ("/" + digits);
  }

  /** The first `-100` of a text that starts with it is the leading one. */
  lemma ReplaceLeading(internal: string)
    ensures Text.ReplaceFirst("-100" + internal, "-100", "") == internal
  {
    var s := "-100" + internal;
    assert "-100" <= s;
    assert s[4..] == internal;
  }

  /** A channel id written `-100<internal>` gives the link
      `https://t.me/c/<internal>/<message>`, with or without an empty
      username. */
  lemma PrivateLinkDropsPrefix(archiveChatId: int, messageId: int, internal: string, username: Option<string>)
    requires archiveChatId != 0 && messageId != 0
    requires Text.IntToString(archiveChatId) == "-100" + internal
    requires username.None? || username.value == ""
    ensures BuildArchiveLink(archiveChatId, messageId, username)
      == Some("https://t.me/c/" + internal + "/" + Text.IntToString(messageId))
  {
    var digits := Text.IntToString(messageId);
    assert Text.ReplaceFirst(Text.IntToString(archiveChatId), "-100", "") == internal by {
      ReplaceLeading(internal);
    }
    assert BuildArchiveLink(archiveChatId, messageId, username)
      == Some(TmePrefix + ("c/" + internal) + ("/" + digits));
    PrivateLinkText(internal, digits);
  }

  lemma PrivateLinkText(internal: string, digits: string)
    ensures TmePrefix + ("c/" + internal) + ("/" + digits) == "https://t.me/c/" + internal + "/" + digits
  {
  }

  /** A positive chat id has no `-100` to remove: its digits are the chat
      part as they are. */
  lemma PositiveChatKept(archiveChatId: int, messageId: int)
    requires archiveChatId > 0 && messageId != 0
    ensures BuildArchiveLink(archiveChatId, messageId, None)
      == Some("https://t.me/c/" + Text.IntToString(archiveChatId) + "/" + Text.IntToString(messageId))
  {
    var s := Text.IntToString(archiveChatId);
    assert Text.IsDecimal(s);
    forall i | 0 <= i <= |s| ensures !Text.OccursAt(s, "-100", i) {
      if i + 4 <= |s| {
        assert s[i..i + 4][0] == s[i];
      }
    }
    var digits := Text.IntToString(messageId);
    assert "https://t.me/c/" + s + "/" + digits == TmePrefix + ("c/" + s) + ("/" + digits);
  }

  lemma ExampleDigits()
    ensures Text.IntToString(-100123) == "-100" + "123"
    ensures Text.IntToString(42) == "42"
  {
    assert Text.NatToString(10) == "10";
    assert Text.NatToString(100) == "100";
    assert Text.NatToString(1001) == "1001";
    assert Text.NatToString(10012) == "10012";
    assert Text.NatToString(100123) == "100123";
    assert Text.NatToString(4) == "4";
  }

  /** The channel `-100123`'s message 42 without a username. */
  lemma PrivateLinkExample()
    ensures BuildArchiveLink(-100123, 42, None) == Some("https://t.me/c/" + "123" + "/" + "42")
  {
    assert BuildArchiveLink(-100123, 42, None) == Some("https://t.me/c/" + "123" + "/" + Text.IntToString(42)) by {
      ExampleDigits();
      PrivateLinkDropsPrefix(-100123, 42, "123", None);
    }
    assert Text.IntToString(42) == "42" by {
      ExampleDigits();
    }
  }

  // ----- get_file_unique_id_from_message ------------------------------------

  /** A file attached to a message, by its `file_unique_id`. */
  datatype Media = Media(fileUniqueId: string)

  /** The media fields of a message that can carry a file: a photo comes in
      several sizes, the largest last. */
  datatype Message = Message(document: Option<Media>, photo: seq<Media>, video: Option<Media>,
                             audio: Option<Media>, voice: Option<Media>, animation: Option<Media>)

  function IdOf(m: Option<Media>): Option<string> {
    if m.Some? then Some(m.value.fileUniqueId) else None
  }

  /** The file ids a message offers, in the order they are looked at. */
  function Candidates(msg: Message): seq<Option<string>> {
    [IdOf(msg.document),
     if msg.photo != [] then Some(msg.photo[|msg.photo| - 1].fileUniqueId) else None,
     IdOf(msg.video), IdOf(msg.audio), IdOf(msg.voice), IdOf(msg.animation)]
  }

  /** The first of `cs` that is present. */
  function FirstPresent(cs: seq<Option<string>>): Option<string> {
    if cs == [] then None else if cs[0].Some? then cs[0] else FirstPresent(cs[1..])
  }

  /** `get_file_unique_id_from_message(msg)`: the document's id, else the
      largest photo's, else the video's, audio's, voice note's or
      animation's, in that order; nothing for no message or no file. */
  function FileUniqueId(msg: Option<Message>): (r: Option<string>)
    ensures msg.None? ==> r.None?
    ensures r.Some? ==> r in Candidates(msg.value)
  {
    if msg.None? then None
    else
      var m := msg.value;
      if m.document.Some? then Some(m.document.value.fileUniqueId)
      else if m.photo != [] then Some(m.photo[|m.photo| - 1].fileUniqueId)
      else if m.video.Some? then Some(m.video.value.fileUniqueId)
      else if m.audio.Some? then Some(m.audio.value.fileUniqueId)
      else if m.voice.Some? then Some(m.voice.value.fileUniqueId)
      else if m.animation.Some? then Some(m.animation.value.fileUniqueId)
      else None
  }

  /** The id found is the first candidate present, or nothing when none
      is. */
  lemma FileIdIsFirstCandidate(msg: Message)
    ensures FileUniqueId(Some(msg)) == FirstPresent(Candidates(msg))
  {
    var a := [IdOf(msg.document), if msg.photo != [] then Some(msg.photo[|msg.photo| - 1].fileUniqueId) else None,
              IdOf(msg.video), IdOf(msg.audio), IdOf(msg.voice), IdOf(msg.animation)];
    assert FirstPresent(a[5..]) == a[5] by {
      assert a[5..][1..] == [];
    }
    assert FirstPresent(a[4..]) == if a[4].Some? then a[4] else a[5] by {
      assert a[4..][1..] == a[5..];
    }
    assert FirstPresent(a[3..]) == if a[3].Some? then a[3] else FirstPresent(a[4..]) by {
      assert a[3..][1..] == a[4..];
    }
    assert FirstPresent(a[2..]) == if a[2].Some? then a[2] else FirstPresent(a[3..]) by {
      assert a[2..][1..] == a[3..];
    }
    assert FirstPresent(a[1..]) == if a[1].Some? then a[1] else FirstPresent(a[2..]) by {
      assert a[1..][1..] == a[2..];
    }
    assert FirstPresent(a) == if a[0].Some? then a[0] else FirstPresent(a[1..]);
  }

  /** A file id is found exactly when the message carries some file. */
  lemma FileIdFoundIff(msg: Message)
    ensures FileUniqueId(Some(msg)).Some? <==>
      msg.document.Some? || msg.photo != [] || msg.video.Some? || msg.audio.Some? || msg.voice.Some? || msg.animation.Some?
  {
  }

  /** The document wins over everything else, and of a photo's sizes the
      last (largest) one is taken. */
  lemma DocumentFirst(msg: Message)
    ensures msg.document.Some? ==> FileUniqueId(Some(msg)) == Some(msg.document.value.fileUniqueId)
    ensures msg.document.None? && msg.photo != [] ==>
      FileUniqueId(Some(msg)) == Some(msg.photo[|msg.photo| - 1].fileUniqueId)
  {
  }
}
