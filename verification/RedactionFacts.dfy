/** Facts about the fixed values and the key and word tables that redaction is written with. */
module RedactionFacts {
  import opened Prelude
  import opened Substrings
  import opened Redaction
  import Decimal

  predicate PlainKey(key: string) {
    key == "type" || key == "subtype" || key == "message" || key == "content" || key == "name"
  }

  lemma PlainKeysAreOpen(key: string)
    requires PlainKey(key)
    ensures RoleOf(key) == Open
  {
  }

  lemma PlaceholderHasSlash()
    ensures Absolute(PLACEHOLDER_CWD)
  {
  }

  lemma FixedIdsHaveNoSlash()
    ensures !HasSlash(FIXED_SESSION_ID) && !HasSlash(FIXED_ID) && !HasSlash(MIDNIGHT)
  {
  }

  /** The words events are told apart by. */
  predicate KindWord(word: string) {
    || word == "rate_limit_event" || word == "system" || word == "thinking_tokens"
    || word == "assistant" || word == "thinking" || word == "init"
  }

  lemma KindWordsHaveNoSlash(word: string)
    requires KindWord(word)
    ensures !HasSlash(word)
  {
  }

  lemma VerbatimToolsArePlain(s: string)
    requires VerbatimTool(s)
    ensures !HasSlash(s) && '-' !in s
  {
  }

  lemma StemsHaveNoSlash(key: string)
    requires RoleOf(key).Names?
    ensures !HasSlash(RoleOf(key).stem)
  {
    hide ListRole;
    ListStems(key);
  }

  lemma ListStems(key: string)
    requires ListRole(key).Names?
    ensures !HasSlash(ListRole(key).stem)
  {
  }

  /** The spelling of the placeholder that a second pass finds. */
  function Alias(): (a: string)
    ensures |a| > |PLACEHOLDER_CWD|
  {
    "/private" + PLACEHOLDER_CWD
  }

  lemma PlaceholderSpellsAlias()
    ensures OtherSpelling(PLACEHOLDER_CWD) == Alias()
  {
    assert PLACEHOLDER_CWD[1] == 't' && "/private"[1] == 'p';
    assert PLACEHOLDER_CWD[..5] == "/tmp/";
  }

  lemma SpellingsOfPlaceholder()
    ensures Spellings(PLACEHOLDER_CWD) == [Alias()]
  {
    PlaceholderSpellsAlias();
  }

  lemma OtherSpellingIsAbsolute(path: string)
    ensures OtherSpelling(path) == "" || Absolute(OtherSpelling(path))
  {
    if "/private" <= path && UnderTemporary(path[8..]) {
      var rest := path[8..];
      assert rest[0] == '/' && |rest| >= 5;
    } else if UnderTemporary(path) {
      assert ("/private" + path)[0] == '/';
    }
  }

  lemma SpellingsAreUsable(path: string)
    ensures forall i :: 0 <= i < |Spellings(path)| ==> Absolute(Spellings(path)[i])
  {
    hide OtherSpelling, TrimSlashes, Absolute;
    OtherSpellingIsAbsolute(TrimSlashes(path));
  }
}
