/** How a suite command is read, over the literal characters and words the rule names. */
module CommandRules {
  import opened Prelude
  import opened CommandReading

  /** What stands for itself outside a single-quoted span makes a command no simple one. */
  lemma MetacharactersAre(c: char)
    ensures Metacharacter(c) <==> c in {'|', '&', ';', '<', '>', '(', ')', '$', '`', '\\', '\n', '\r'}
  {
  }

  /** Words are set apart by spaces and tabs. */
  lemma BlanksAre(c: char)
    ensures Blank(c) <==> c in {' ', '\t'}
  {
  }

  /** ASCII letters, digits and four marks. */
  predicate NameCharacter(c: char) {
    || 48 <= c as int <= 57 || 65 <= c as int <= 90 || 97 <= c as int <= 122
    || c in {'_', '.', '+', '-'}
  }

  lemma NameCharactersAre(c: char)
    ensures BareCharacter(c) <==> NameCharacter(c)
  {
  }

  predicate RunsAnother(word: string) {
    word in {"env", "exec", "command", "builtin", "xargs", "timeout", "nice", "nohup", "time", "sudo", "doas", "eval",
             "source", ".", "sh", "bash", "dash", "zsh", "ksh"}
  }

  lemma WrappersAre(word: string)
    ensures Wrapper(word) <==> RunsAnother(word)
  {
  }

  /** A plain program name: no wrapper, and of name characters alone. */
  predicate PlainName(word: string) {
    word != "" && (forall i :: 0 <= i < |word| ==> NameCharacter(word[i])) && !RunsAnother(word)
  }

  /** A word with a slash, no assignment and no quote. */
  predicate FileName(word: string) {
    '/' in word && '=' !in word && '\'' !in word && '"' !in word
  }

  lemma BareNamesAre(word: string)
    ensures BareName(word) && !Wrapper(word) <==> PlainName(word)
    ensures FileName(word) ==> !BareName(word)
    ensures NamesFile(word) <==> FileName(word)
  {
    hide BareCharacter, NameCharacter, Wrapper, RunsAnother;
    WrappersAre(word);
    forall i | 0 <= i < |word| ensures BareCharacter(word[i]) <==> NameCharacter(word[i]) {
      NameCharactersAre(word[i]);
    }
    SlashIsNoNameCharacter();
    if FileName(word) {
      var i :| 0 <= i < |word| && word[i] == '/';
      assert !BareCharacter(word[i]);
    }
  }

  lemma SlashIsNoNameCharacter()
    ensures !BareCharacter('/')
  {
  }

  lemma BlankWordIsNoFile(word: string)
    requires FileName(word)
    ensures word != ""
  {
  }

  /**
   A simple command that leads with a plain name requires that program; one that leads with the name of a file
   requires none; every other command is not parsed.
   */
  lemma ReadingExactly(command: string)
    ensures forall p :: ReadingOf(command) == Program(p) <==> Simple(command) && LeadsWith(command, p) && PlainName(p)
    ensures ReadingOf(command) == Path <==> Simple(command) && exists w :: LeadsWith(command, w) && FileName(w)
    ensures ReadingOf(command) == Unparsed <==>
              !(Simple(command) && exists w :: LeadsWith(command, w) && (PlainName(w) || FileName(w)))
  {
    hide Simple, LeadsWith, BareName, Wrapper, PlainName, FileName, NamesFile, ReadingOf, FirstWord;
    var first := FirstWord(command);
    FirstWordLeads(command);
    forall p
      ensures ReadingOf(command) == Program(p) <==> Simple(command) && LeadsWith(command, p) && PlainName(p)
    {
      ReadExactly(command, p);
      BareNamesAre(p);
    }
    forall w ensures LeadsWith(command, w) && FileName(w) ==> w == first {
      if LeadsWith(command, w) && FileName(w) {
        BlankWordIsNoFile(w);
        OneFirstWord(command, w);
      }
    }
    ReadExactly(command, first);
    BareNamesAre(first);
    if ReadingOf(command).Program? {
      var p := ReadingOf(command).program;
      assert LeadsWith(command, p) && PlainName(p);
    }
  }
}
