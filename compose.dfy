/**
 * The client's input checks and text editing: the `createGroup` form
 * check (client/main.js:830-862), the `sendMessage` guard
 * (client/main.js:495-497) and the emoji insertion at the cursor
 * (client/main.js:1153-1162).
 */
module Compose {
  import opened Wrappers
  import opened Text

  /** Shown when the group name is blank. */
  const NameMissingText := "Por favor ingresa un nombre para el grupo"
  /** Shown when no member is ticked. */
  const NoMembersText := "Selecciona al menos un miembro"

  /** The payload of the `create-group` emit. */
  datatype GroupRequest = GroupRequest(groupName: string, members: seq<string>, creator: string)

  /**
   * `createGroup`: the trimmed name must not be empty and at least one
   * member must be ticked; the creator is then appended to the members.
   */
  function ValidateGroup(typedName: string, selected: seq<string>, me: string): (r: Result<GroupRequest, string>)
    ensures IsBlank(typedName) ==> r == Err(NameMissingText)
    ensures !IsBlank(typedName) && selected == [] ==> r == Err(NoMembersText)
    ensures r.Ok? <==> !IsBlank(typedName) && selected != []
    ensures r.Ok? ==> r.value.groupName == Trim(typedName) && r.value.creator == me
    ensures r.Ok? ==> r.value.members == selected + [me]
  {
    var name := Trim(typedName);
    if name == "" then Err(NameMissingText)
    else if selected == [] then Err(NoMembersText)
    else Ok(GroupRequest(name, selected + [me], me))
  }

  /** An accepted request names a group with no white space at either end and lists the creator among at least two members. */
  lemma ValidatedGroupShape(typedName: string, selected: seq<string>, me: string)
    requires ValidateGroup(typedName, selected, me).Ok?
    ensures var req := ValidateGroup(typedName, selected, me).value;
      && req.groupName != ""
      && !IsSpace(req.groupName[0]) && !IsSpace(req.groupName[|req.groupName| - 1])
      && me in req.members
      && |req.members| >= 2
  {
    var req := ValidateGroup(typedName, selected, me).value;
    assert req.members[|selected|] == me;
  }

  /**
   * `sendMessage`'s guard: the trimmed input is sent when it is not empty
   * and a chat is open; otherwise nothing is sent.
   */
  function OutgoingText(input: string, chatOpen: bool): (r: Option<string>)
    ensures r.Some? <==> chatOpen && !IsBlank(input)
    ensures r.Some? ==> r.value == Trim(input)
  {
    var text := Trim(input);
    if text == "" || !chatOpen then None else Some(text)
  }

  /** Trimming a trimmed text again changes nothing, so what is sent is already in final form. */
  lemma {:induction false} TrimIdempotent(s: string)
    ensures Trim(Trim(s)) == Trim(s)
  {
    var r := Trim(s);
    if r != [] {
      assert LeadingSpaces(r) == 0;
      assert TrailingSpaces(r[0..]) == 0;
      assert r[0..] == r;
    } else {
      assert LeadingSpaces(r) == 0;
    }
  }

  /**
   * The emoji picker's insertion: the emoji goes in at the cursor (which
   * `substring` clamps to the text), and the cursor is put after it.
   */
  function InsertEmoji(value: string, cursor: nat, emoji: string): (r: (string, nat))
    ensures |r.0| == |value| + |emoji|
    ensures r.1 == cursor + |emoji|
    ensures cursor <= |value| ==> r.0[..cursor] == value[..cursor] && r.0[cursor..r.1] == emoji && r.0[r.1..] == value[cursor..]
    ensures cursor > |value| ==> r.0 == value + emoji
  {
    var at := if cursor <= |value| then cursor else |value|;
    (value[..at] + emoji + value[at..], cursor + |emoji|)
  }

  /** Removing the inserted emoji gives back the text as it was, wherever the cursor stood. */
  lemma InsertEmojiRoundTrip(value: string, cursor: nat, emoji: string)
    ensures var at := if cursor <= |value| then cursor else |value|;
      var text := InsertEmoji(value, cursor, emoji).0;
      text[..at] + text[at + |emoji|..] == value
  {
    var at := if cursor <= |value| then cursor else |value|;
    var text := InsertEmoji(value, cursor, emoji).0;
    assert text[..at] == value[..at];
    assert text[at + |emoji|..] == value[at..];
    assert value[..at] + value[at..] == value;
  }
}
