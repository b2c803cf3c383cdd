/**
 * The routing in `slack_command`: the trimmed text is split on single
 * spaces, the first token is lower-cased, the second kept as it is, and
 * the command goes to list, delete, help or schedule in that order.
 */
module Routing {

  import opened Wrappers
  import opened JsText
  import opened Slack

  /** Where a command goes. `Ignore` is a command the handler never answers. */
  datatype Route =
    | List(inChannel: bool)
    | MissingId
    | Delete(id: string)
    | Help
    | Schedule(text: string)
    | Ignore

  /** `text`: the payload text, trimmed, or the empty string when it is absent. */
  function CommandText(p: Payload): (text: string)
    ensures IsTrimmed(text)
    ensures text == "" <==> p.text.None? || AllSpace(p.text.value)
  {
    if p.text.Some? then Trim(p.text.value) else ""
  }

  /** `command2`: the first token, lower-cased. */
  function Command2(text: string): (c2: string)
    ensures |c2| == |Split(text)[0]|
    ensures ' ' !in c2
  {
    var first := Split(text)[0];
    assert forall i :: 0 <= i < |first| ==> LowerChar(first[i]) != ' ';
    ToLower(first)
  }

  /** `command3`: the second token as typed, when there is one. */
  function Command3(text: string): (c3: Option<string>)
    ensures c3.Some? <==> |Split(text)| >= 2
    ensures c3.Some? ==> c3.value == Split(text)[1] && ' ' !in c3.value
  {
    var tokens := Split(text);
    if |tokens| >= 2 then Some(tokens[1]) else None
  }

  predicate IsListCommand(p: Payload)
  {
    p.command == "/slist" || (p.command == "/send" && Command2(CommandText(p)) == "list")
  }

  predicate IsDeleteCommand(p: Payload)
  {
    p.command == "/sdelete" || (p.command == "/send" && Command2(CommandText(p)) == "delete")
  }

  /** The id `/sdelete` and `/send delete` act on: the second token after `delete`, else the whole text. */
  function DeleteId(text: string): (id: string)
    ensures id == text || (Command2(text) == "delete" && |Split(text)| >= 2 && id == Split(text)[1]
                           && id != "" && ' ' !in id)
  {
    var c3 := Command3(text);
    if Command2(text) == "delete" && Truthy(c3) then c3.value else text
  }

  /**
   * The branch of `slack_command` a payload takes, with what that branch
   * reads from the text: whether a listing goes to the channel, the id a
   * delete acts on, the text a schedule request parses.
   */
  function RouteOf(p: Payload): (r: Route)
    ensures r.List? <==> IsListCommand(p)
    ensures r.MissingId? || r.Delete? <==> !IsListCommand(p) && IsDeleteCommand(p)
    ensures r.Help? || r.Schedule? <==> !IsListCommand(p) && !IsDeleteCommand(p) && p.command == "/send"
    ensures r.Ignore? <==> p.command != "/slist" && p.command != "/sdelete" && p.command != "/send"
    ensures r.Help? <==> !IsListCommand(p) && !IsDeleteCommand(p) && p.command == "/send"
                         && (CommandText(p) == "" || Command2(CommandText(p)) == "help")
    ensures r.List? ==> (r.inChannel <==> CommandText(p) == "inline"
                                          || (Command2(CommandText(p)) == "list" && Truthy(Command3(CommandText(p)))
                                              && ToLower(Command3(CommandText(p)).value) == "inline"))
    ensures r.Delete? ==> r.id == if Command2(CommandText(p)) == "delete" && Truthy(Command3(CommandText(p)))
                                  then Command3(CommandText(p)).value else CommandText(p)
    ensures r.Schedule? ==> r.text == CommandText(p)
  {
    var text := CommandText(p);
    var c2 := Command2(text);
    var c3 := Command3(text);
    if IsListCommand(p) then
      List(text == "inline" || (c2 == "list" && Truthy(c3) && ToLower(c3.value) == "inline"))
    else if IsDeleteCommand(p) then
      if |Trim(text)| == 0 then MissingId else Delete(DeleteId(text))
    else if p.command == "/send" then
      if |text| == 0 || c2 == "help" then Help else Schedule(text)
    else Ignore
  }

  /**
   * A delete command with an empty text is a missing id, and with any other
   * text a delete; the id is the second word after `delete` when there is a
   * non-empty one, and the whole text otherwise.
   */
  lemma DeleteIdChoice(p: Payload)
    ensures RouteOf(p).MissingId? <==> !IsListCommand(p) && IsDeleteCommand(p) && CommandText(p) == ""
    ensures RouteOf(p).Delete? <==> !IsListCommand(p) && IsDeleteCommand(p) && CommandText(p) != ""
    ensures RouteOf(p).Delete? ==> RouteOf(p).id != ""
    ensures RouteOf(p).Delete? && RouteOf(p).id != CommandText(p) ==>
              Command2(CommandText(p)) == "delete" && |Split(CommandText(p))| >= 2
              && RouteOf(p).id == Split(CommandText(p))[1] && ' ' !in RouteOf(p).id
    ensures (RouteOf(p).Delete? && Command2(CommandText(p)) == "delete" && |Split(CommandText(p))| >= 2
             && Split(CommandText(p))[1] != "") ==> RouteOf(p).id == Split(CommandText(p))[1]
  {
    var text := CommandText(p);
    // The delete branch trims the text a second time, which changes nothing.
    if p.text.Some? {
      TrimIdempotent(p.text.value);
    } else {
      TrimOfTrimmed(text);
    }
    var r := RouteOf(p);
    if r.Delete? && r.id != text {
      assert Command2(text) == "delete" && Truthy(Command3(text));
    }
  }

  /**
   * `/send` schedules exactly when its text is non-empty and its first word
   * is none of `list`, `delete`, `help`, and the schedule path gets the
   * trimmed text.
   */
  lemma ScheduleOnlyForOtherText(p: Payload)
    ensures RouteOf(p).Schedule? <==>
              p.command == "/send" && CommandText(p) != ""
              && var c2 := Command2(CommandText(p)); c2 != "list" && c2 != "delete" && c2 != "help"
    ensures RouteOf(p).Schedule? ==> RouteOf(p) == Schedule(CommandText(p))
  {
  }

  /** Two words joined by one space split back into those words. */
  lemma SplitTwoWords(a: string, b: string)
    requires ' ' !in a && ' ' !in b
    ensures Split(a + " " + b) == [a, b]
  {
    assert Join([a, b]) == a + " " + b;
    SplitJoin([a, b]);
  }

  /** `/send delete <id>`, `delete` in any letter case, deletes `<id>` for every id without spaces at its ends or inside. */
  lemma SendDeleteSelectsId(p: Payload, del: string, id: string)
    requires p.command == "/send" && p.text == Some(del + " " + id)
    requires ToLower(del) == "delete"
    requires id != [] && ' ' !in id && !IsSpace(id[|id| - 1])
    ensures RouteOf(p) == Delete(id)
  {
    var text := del + " " + id;
    assert CommandText(p) == text && Command2(text) == "delete" && Command3(text) == Some(id) by {
      LowerToLetters(del, "delete");
      LettersNoSpace(del);
      TwoWords(del, id);
    }
    assert |"delete"| == 6 && |"list"| == 4;
  }

  /** `/sdelete <id>` takes the whole text unless it starts with the word `delete`. */
  lemma SlashDeleteUsesWholeText(p: Payload, id: string)
    requires p.command == "/sdelete" && p.text == Some(id)
    requires IsTrimmed(id) && id != []
    requires ToLower(Split(id)[0]) != "delete"
    ensures RouteOf(p) == Delete(id)
  {
    TrimOfTrimmed(id);
    assert CommandText(p) == id;
  }

  /** A one-word text of letters: it is its own first word, with no second. */
  lemma OneLetterWord(w: string)
    requires w != [] && Letters(w)
    ensures Trim(w) == w && Command2(w) == ToLower(w) && Command3(w) == None
  {
    LettersNoSpace(w);
    TrimOfTrimmed(w);
    SplitOneWord(w);
  }

  /** Two words joined by one space, with no space at the outer ends: the trim keeps them and the split separates them. */
  lemma TwoWords(a: string, b: string)
    requires a != [] && b != [] && ' ' !in a && ' ' !in b && !IsSpace(a[0]) && !IsSpace(b[|b| - 1])
    ensures var text := a + " " + b;
            Trim(text) == text && Command2(text) == ToLower(a) && Command3(text) == Some(b)
  {
    var text := a + " " + b;
    assert text[0] == a[0] && text[|text| - 1] == b[|b| - 1];
    TrimOfTrimmed(text);
    SplitTwoWords(a, b);
    assert Split(text)[0] == a;
  }

  /** `/send list inline`, in any letter case, lists in the channel. */
  lemma ListInline(p: Payload, list: string, inline: string)
    requires p.command == "/send" && p.text == Some(list + " " + inline)
    requires ToLower(list) == "list" && ToLower(inline) == "inline"
    ensures RouteOf(p) == List(true)
  {
    var text := list + " " + inline;
    assert CommandText(p) == text && Command2(text) == "list" && Command3(text) == Some(inline)
           && inline != "" && text != "inline" by {
      LowerToLetters(list, "list");
      LowerToLetters(inline, "inline");
      LettersNoSpace(list);
      LettersNoSpace(inline);
      TwoWords(list, inline);
      assert |text| == 11 && |"inline"| == 6;
    }
  }

  /** `/send delete` with nothing after it deletes the id `delete`. */
  lemma BareSendDelete(p: Payload)
    requires p.command == "/send" && p.text == Some("delete")
    ensures RouteOf(p) == Delete("delete")
  {
    LowerLettersFixed("delete");
    OneLetterWord("delete");
    assert |"delete"| == 6 && |"list"| == 4;
  }

  lemma DoubleSpaceText(p: Payload)
    requires p.text == Some("delete  abc")
    ensures CommandText(p) == "delete  abc"
  {
    assert !IsSpace('d') && !IsSpace('c');
    TrimOfTrimmed("delete  abc");
  }

  lemma DoubleSpaceSplit()
    ensures Split("delete  abc") == ["delete", "", "abc"]
  {
    assert Join(["", "abc"]) == "" + " " + "abc";
    assert Join(["delete", "", "abc"]) == "delete" + " " + Join(["", "abc"]);
    assert "delete" + " " + ("" + " " + "abc") == "delete  abc";
    SplitJoin(["delete", "", "abc"]);
  }

  lemma DoubleSpaceWords()
    ensures Command2("delete  abc") == "delete" && Command3("delete  abc") == Some("")
  {
    DoubleSpaceSplit();
    LowerLettersFixed("delete");
  }

  /** Two spaces make an empty second token, which is falsy: the whole text becomes the id. */
  lemma DoubleSpaceDelete(p: Payload)
    requires p.command == "/send" && p.text == Some("delete  abc")
    ensures RouteOf(p) == Delete("delete  abc")
  {
    DoubleSpaceText(p);
    DoubleSpaceWords();
    TrimOfTrimmed("delete  abc");
  }

  /** `/slist inline` lists in the channel. */
  lemma SlashListInline(p: Payload)
    requires p.command == "/slist" && p.text == Some("inline")
    ensures RouteOf(p) == List(true)
  {
    OneLetterWord("inline");
  }

  /** `inline` is compared as typed when it is the whole text: `/slist INLINE` stays private. */
  lemma SlashListUpper(p: Payload)
    requires p.command == "/slist" && p.text == Some("INLINE")
    ensures RouteOf(p) == List(false)
  {
    OneLetterWord("INLINE");
    assert "INLINE"[0] != "inline"[0];
  }

  /** An empty `/send` shows help. */
  lemma SendWithoutText(p: Payload)
    requires p.command == "/send" && p.text == None
    ensures RouteOf(p) == Help
  {
    assert Split("") == [""];
  }

  /** `/send help <word>`, `help` in any letter case, shows help instead of scheduling. */
  lemma SendHelpWord(p: Payload, help: string, w: string)
    requires p.command == "/send" && p.text == Some(help + " " + w)
    requires ToLower(help) == "help"
    requires w != [] && ' ' !in w && !IsSpace(w[|w| - 1])
    ensures RouteOf(p) == Help
  {
    var text := help + " " + w;
    assert CommandText(p) == text && Command2(text) == "help" && Command3(text) == Some(w) by {
      LowerToLetters(help, "help");
      LettersNoSpace(help);
      TwoWords(help, w);
    }
    assert |"help"| == 4 && |"list"| == 4 && |"delete"| == 6 && "help"[0] != "list"[0];
  }

  /** `/sdelete` without text asks for the id. */
  lemma SlashDeleteWithoutText(p: Payload)
    requires p.command == "/sdelete" && p.text == None
    ensures RouteOf(p) == MissingId
  {
    assert Split("") == [""];
  }
}
