/** The command keywords of the chatbot and the case-insensitive classifier `CommandType.from`. */
module CommandTypes {
  import opened Wrappers
  import opened JavaStrings

  datatype CommandType =
    | Bye | List | Mark | Unmark | Delete | Todo | Deadline | Event | Find | Help | Hello | Unknown

  /** The lower-case words that select each command; `Unknown` has none. */
  function Keywords(c: CommandType): set<string> {
    match c
    case Bye => {"bye"}
    case List => {"list"}
    case Mark => {"mark"}
    case Unmark => {"unmark"}
    case Delete => {"delete"}
    case Todo => {"todo"}
    case Deadline => {"deadline"}
    case Event => {"event"}
    case Find => {"find"}
    case Help => {"help"}
    case Hello => {"hi", "hello"}
    case Unknown => {}
  }

  /**
   * `CommandType.from(word)`; Java's null word is None. The word is lower-cased
   * and compared with the keywords, so a command is chosen exactly when the
   * lower-cased word is one of its keywords, and every other word is Unknown.
   */
  function From(word: Option<string>): (c: CommandType)
    ensures word.None? ==> c == Unknown
    ensures word.Some? && c != Unknown ==> ToLower(word.value) in Keywords(c)
  {
    match word
    case None => Unknown
    case Some(w) =>
      var lower := ToLower(w);
      if lower == "bye" then Bye
      else if lower == "list" then List
      else if lower == "mark" then Mark
      else if lower == "unmark" then Unmark
      else if lower == "delete" then Delete
      else if lower == "todo" then Todo
      else if lower == "deadline" then Deadline
      else if lower == "event" then Event
      else if lower == "find" then Find
      else if lower == "help" then Help
      else if lower == "hi" || lower == "hello" then Hello
      else Unknown
  }

  /** A word is Unknown exactly when its lower-cased form is no command's keyword. */
  lemma FromUnknown(w: string)
    ensures From(Some(w)) == Unknown <==> forall k :: ToLower(w) !in Keywords(k)
  {
  }

  /** Classification ignores case: a word and its lower-case form select the same command. */
  lemma FromIgnoresCase(w: string)
    ensures From(Some(w)) == From(Some(ToLower(w)))
  {
    ToLowerIdempotent(w);
  }

  /** Every keyword selects its own command, so no two commands share a keyword. */
  lemma FromKeyword(c: CommandType, w: string)
    requires w in Keywords(c)
    ensures From(Some(w)) == c
  {
    if w == "bye" { LowerWordIsLower("bye"); }
    else if w == "list" { LowerWordIsLower("list"); }
    else if w == "mark" { LowerWordIsLower("mark"); }
    else if w == "unmark" { LowerWordIsLower("unmark"); }
    else if w == "delete" { LowerWordIsLower("delete"); }
    else if w == "todo" { LowerWordIsLower("todo"); }
    else if w == "deadline" { LowerWordIsLower("deadline"); }
    else if w == "event" { LowerWordIsLower("event"); }
    else if w == "find" { LowerWordIsLower("find"); }
    else if w == "help" { LowerWordIsLower("help"); }
    else if w == "hi" { LowerWordIsLower("hi"); }
    else { LowerWordIsLower("hello"); }
  }

  /** A word of lower-case letters is its own lower-case form. */
  lemma LowerWordIsLower(w: string)
    requires forall k :: 0 <= k < |w| ==> 'a' <= w[k] <= 'z'
    ensures ToLower(w) == w
  {
  }
}
