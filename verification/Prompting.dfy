// The interactive prompts: one shared line scanner, masked reads for secrets,
// questions written in a fixed order.
module Prompting {
  import opened Prelude

  // ------------------------------------------------------------- white space

  predicate IsSpace(c: char) {
    c == '\t' || c == '\n' || c == '\U{b}' || c == '\U{c}' || c == '\r' || c == ' ' || c == '\U{85}' || c == '\U{a0}' ||
    c == '\U{1680}' || '\U{2000}' <= c <= '\U{200a}' || c == '\U{2028}' || c == '\U{2029}' || c == '\U{202f}' ||
    c == '\U{205f}' || c == '\U{3000}'
  }

  const ASCII_SPACES: string := "\t\n\U{b}\U{c}\r "
  const OTHER_SPACES: string := "\U{85}\U{a0}\U{1680}\U{2028}\U{2029}\U{202f}\U{205f}\U{3000}"
  const WIDTH_SPACES: string := "\U{2000}\U{2001}\U{2002}\U{2003}\U{2004}\U{2005}\U{2006}\U{2007}\U{2008}\U{2009}\U{200a}"

  // White space, as the Unicode standard lists it.
  lemma SpaceMeans(c: char)
    ensures IsSpace(c) <==> c in ASCII_SPACES || c in OTHER_SPACES || c in WIDTH_SPACES
  {
    if '\U{2000}' <= c <= '\U{200a}' { assert WIDTH_SPACES[c as int - 0x2000] == c; }
    AsciiSpaceMeans(c);
    OtherSpaceMeans(c);
  }

  lemma AsciiSpaceMeans(c: char)
    ensures c in ASCII_SPACES <==> c == '\t' || c == '\n' || c == '\U{b}' || c == '\U{c}' || c == '\r' || c == ' '
  {
    var s := ASCII_SPACES;
    assert s[0] == '\t' && s[1] == '\n' && s[2] == '\U{b}' && s[3] == '\U{c}' && s[4] == '\r' && s[5] == ' ';
  }

  lemma OtherSpaceMeans(c: char)
    ensures c in OTHER_SPACES <==>
            c == '\U{85}' || c == '\U{a0}' || c == '\U{1680}' || c == '\U{2028}' || c == '\U{2029}' || c == '\U{202f}' ||
            c == '\U{205f}' || c == '\U{3000}'
  {
    var s := OTHER_SPACES;
    assert s[0] == '\U{85}' && s[1] == '\U{a0}' && s[2] == '\U{1680}' && s[3] == '\U{2028}';
    assert s[4] == '\U{2029}' && s[5] == '\U{202f}' && s[6] == '\U{205f}' && s[7] == '\U{3000}';
  }

  function TrimLeft(s: string): string {
    if s != "" && IsSpace(s[0]) then TrimLeft(s[1..]) else s
  }

  function TrimRight(s: string): string {
    if s != "" && IsSpace(s[|s| - 1]) then TrimRight(s[..|s| - 1]) else s
  }

  function Trim(s: string): string {
    TrimRight(TrimLeft(s))
  }

  predicate Trimmed(s: string) {
    s == "" || (!IsSpace(s[0]) && !IsSpace(s[|s| - 1]))
  }

  lemma TrimmedStays(s: string)
    requires Trimmed(s)
    ensures Trim(s) == s
  {
  }

  lemma {:induction false} TrimLeftStarts(s: string)
    ensures TrimLeft(s) != "" ==> !IsSpace(TrimLeft(s)[0])
  {
    if s != "" && IsSpace(s[0]) { TrimLeftStarts(s[1..]); }
  }

  lemma {:induction false} TrimRightEnds(s: string)
    requires s != "" ==> !IsSpace(s[0])
    ensures Trimmed(TrimRight(s))
  {
    if s != "" && IsSpace(s[|s| - 1]) { TrimRightEnds(s[..|s| - 1]); }
  }

  // Whatever is typed, what is kept carries no space at either end.
  lemma TrimTrims(s: string)
    ensures Trimmed(Trim(s))
  {
    TrimLeftStarts(s);
    TrimRightEnds(TrimLeft(s));
  }

  // Nothing but white space is cut off.
  lemma {:induction false} TrimLeftCuts(s: string) returns (a: string)
    ensures s == a + TrimLeft(s) && Blank(a)
  {
    a := "";
    if s != "" && IsSpace(s[0]) {
      var b := TrimLeftCuts(s[1..]);
      a := [s[0]] + b;
    }
  }

  lemma {:induction false} TrimRightCuts(s: string) returns (b: string)
    ensures s == TrimRight(s) + b && Blank(b)
  {
    b := "";
    if s != "" && IsSpace(s[|s| - 1]) {
      var a := TrimRightCuts(s[..|s| - 1]);
      b := a + [s[|s| - 1]];
      assert s == s[..|s| - 1] + [s[|s| - 1]];
    }
  }

  lemma TrimCuts(s: string) returns (a: string, b: string)
    ensures s == a + Trim(s) + b && Blank(a) && Blank(b)
  {
    a := TrimLeftCuts(s);
    b := TrimRightCuts(TrimLeft(s));
  }

  predicate Blank(s: string) {
    forall i :: 0 <= i < |s| ==> IsSpace(s[i])
  }

  // ------------------------------------------------------------ the terminal

  // What is still to be typed, in lines and in masked reads (none for a read
  // that fails), and what has been written.
  datatype Terminal = Terminal(lines: seq<string>, secrets: seq<Option<string>>, out: string)

  datatype PersistChoice = PersistSkip | PersistKeyring | PersistCommand | PersistLiteral

  datatype Values = Values(server: string, caller: string, recipients: string)

  datatype CredentialAnswer = CredentialAnswer(value: string, choice: PersistChoice, extra: string)

  datatype PromptResult = PromptResult(server: string, caller: string, recipients: string,
                                       token: CredentialAnswer, identity: CredentialAnswer)

  const NO_ANSWER := CredentialAnswer("", PersistSkip, "")

  function Wrote(t: Terminal, text: string): Terminal {
    t.(out := t.out + text)
  }

  // One line from the scanner; none at the end of input.
  function Scanned(t: Terminal): (Option<string>, Terminal) {
    if t.lines == [] then (None, t) else (Some(t.lines[0]), t.(lines := t.lines[1..]))
  }

  function ValueAsked(t: Terminal, prompt: string, current: string): (string, Terminal) {
    var (line, t') := Scanned(Wrote(t, prompt + " [" + current + "]: "));
    (if line.None? || Trim(line.value) == "" then current else Trim(line.value), t')
  }

  function SecretAsked(t: Terminal, prompt: string): (Option<string>, Terminal) {
    var asked := Wrote(t, prompt + ": ");
    if asked.secrets == [] || asked.secrets[0].None? then (None, asked.(secrets := if asked.secrets == [] then [] else asked.secrets[1..]))
    else (Some(Trim(asked.secrets[0].value)), Wrote(asked.(secrets := asked.secrets[1..]), "\n"))
  }

  function Menu(field: string): string {
    "Save " + field + " for next time?\n" +
    "  1) OS keyring\n" +
    "  2) a command that retrieves it\n" +
    "  3) the literal value in the config file\n" +
    "  4) don't save it\n" +
    "choice [4]: "
  }

  function ChoiceAsked(t: Terminal, field: string): (PersistChoice, string, Terminal) {
    var (line, t1) := Scanned(Wrote(t, Menu(field)));
    if line.None? then (PersistSkip, "", t1)
    else if Trim(line.value) == "1" then (PersistKeyring, "", t1)
    else if Trim(line.value) == "2" then
      var (command, t2) := Scanned(Wrote(t1, "command: "));
      if command.None? then (PersistSkip, "", t2) else (PersistCommand, Trim(command.value), t2)
    else if Trim(line.value) == "3" then (PersistLiteral, "", t1)
    else (PersistSkip, "", t1)
  }

  function CredentialAsked(t: Terminal, prompt: string): (Option<CredentialAnswer>, Terminal) {
    var (value, t1) := SecretAsked(t, prompt);
    if value.None? then (None, t1)
    else if value.value == "" then (Some(NO_ANSWER), t1)
    else
      var (choice, extra, t2) := ChoiceAsked(t1, prompt);
      (Some(CredentialAnswer(value.value, choice, extra)), t2)
  }

  const TOKEN_LABEL := "Token"
  const SERVER_LABEL := "Server URL"
  const CALLER_LABEL := "Caller identity (optional)"
  const RECIPIENTS_LABEL := "Recipients (comma-separated age public keys, optional)"
  const IDENTITY_LABEL := "Identity (comma-separated age private keys)"

  // Server, token, caller, recipients, identity, in that order.
  function ConfigAsked(t: Terminal, current: Values): (Option<PromptResult>, Terminal) {
    var (server, t1) := ValueAsked(t, SERVER_LABEL, current.server);
    var (token, t2) := CredentialAsked(t1, TOKEN_LABEL);
    if token.None? then (None, t2)
    else
      var (caller, t3) := ValueAsked(t2, CALLER_LABEL, current.caller);
      var (recipients, t4) := ValueAsked(t3, RECIPIENTS_LABEL, current.recipients);
      var (identity, t5) := CredentialAsked(t4, IDENTITY_LABEL);
      if identity.None? then (None, t5)
      else (Some(PromptResult(server, caller, recipients, token.value, identity.value)), t5)
  }

  // The scanner, the masked reader and the writer the prompts share.
  class Console {
    var lines: seq<string>
    var secrets: seq<Option<string>>
    var out: string

    constructor (lines: seq<string>, secrets: seq<Option<string>>)
      ensures View() == Terminal(lines, secrets, "")
    {
      this.lines, this.secrets, this.out := lines, secrets, "";
    }

    function View(): Terminal
      reads this
    {
      Terminal(lines, secrets, out)
    }

    method Write(text: string)
      modifies this`out
      ensures View() == Wrote(old(View()), text)
    {
      out := out + text;
    }

    method Scan() returns (line: Option<string>)
      modifies this`lines
      ensures (line, View()) == Scanned(old(View()))
    {
      if lines == [] {
        return None;
      }
      line := Some(lines[0]);
      lines := lines[1..];
    }

    method PromptValue(prompt: string, current: string) returns (value: string)
      modifies this
      ensures (value, View()) == ValueAsked(old(View()), prompt, current)
    {
      Write(prompt + " [" + current + "]: ");
      var line := Scan();
      if line.None? {
        return current;
      }
      if Trim(line.value) != "" {
        return Trim(line.value);
      }
      return current;
    }

    method PromptSecret(prompt: string) returns (value: Option<string>)
      modifies this
      ensures (value, View()) == SecretAsked(old(View()), prompt)
    {
      Write(prompt + ": ");
      if secrets == [] {
        return None;
      }
      var read := secrets[0];
      secrets := secrets[1..];
      if read.None? {
        return None;
      }
      Write("\n");
      return Some(Trim(read.value));
    }

    method PromptPersistence(field: string) returns (choice: PersistChoice, extra: string)
      modifies this
      ensures (choice, extra, View()) == ChoiceAsked(old(View()), field)
    {
      Write(Menu(field));
      var line := Scan();
      if line.None? {
        return PersistSkip, "";
      }
      match Trim(line.value) {
        case "1" => return PersistKeyring, "";
        case "2" =>
          Write("command: ");
          var command := Scan();
          if command.None? {
            return PersistSkip, "";
          }
          return PersistCommand, Trim(command.value);
        case "3" => return PersistLiteral, "";
        case _ => return PersistSkip, "";
      }
    }

    method PromptCredential(prompt: string) returns (answer: Option<CredentialAnswer>)
      modifies this
      ensures (answer, View()) == CredentialAsked(old(View()), prompt)
    {
      var value := PromptSecret(prompt);
      if value.None? {
        return None;
      }
      if value.value == "" {
        return Some(NO_ANSWER);
      }
      var choice, extra := PromptPersistence(prompt);
      return Some(CredentialAnswer(value.value, choice, extra));
    }

    method PromptConfig(current: Values) returns (result: Option<PromptResult>)
      modifies this
      ensures (result, View()) == ConfigAsked(old(View()), current)
    {
      var server := PromptValue(SERVER_LABEL, current.server);
      var token := PromptCredential(TOKEN_LABEL);
      if token.None? {
        return None;
      }
      var caller := PromptValue(CALLER_LABEL, current.caller);
      var recipients := PromptValue(RECIPIENTS_LABEL, current.recipients);
      var identity := PromptCredential(IDENTITY_LABEL);
      if identity.None? {
        return None;
      }
      return Some(PromptResult(server, caller, recipients, token.value, identity.value));
    }
  }

  // --------------------------------------------------------- typed answers

  // What the user wants done with a credential.
  datatype How = ByKeyring | ByCommand(command: string) | ByLiteral | NotSaved

  datatype Credential = Blank | Typed(value: string, how: How)

  datatype Answers = Answers(server: string, caller: string, recipients: string, token: Credential, identity: Credential)

  predicate TypableCredential(c: Credential) {
    c.Typed? ==> c.value != "" && Trimmed(c.value) && (c.how.ByCommand? ==> Trimmed(c.how.command))
  }

  // Answers as they come out of trimming.
  predicate Typable(a: Answers) {
    Trimmed(a.server) && Trimmed(a.caller) && Trimmed(a.recipients) && TypableCredential(a.token) && TypableCredential(a.identity)
  }

  function LinesFor(c: Credential): seq<string> {
    if c.Blank? then []
    else match c.how
      case ByKeyring => ["1"]
      case ByCommand(command) => ["2", command]
      case ByLiteral => ["3"]
      case NotSaved => ["4"]
  }

  function SecretFor(c: Credential): Option<string> {
    Some(if c.Typed? then c.value else "")
  }

  // The lines and the masked reads that give these answers.
  function Script(a: Answers): seq<string> {
    [a.server] + LinesFor(a.token) + [a.caller, a.recipients] + LinesFor(a.identity)
  }

  function AnswerFor(c: Credential): CredentialAnswer {
    if c.Blank? then NO_ANSWER
    else match c.how
      case ByKeyring => CredentialAnswer(c.value, PersistKeyring, "")
      case ByCommand(command) => CredentialAnswer(c.value, PersistCommand, command)
      case ByLiteral => CredentialAnswer(c.value, PersistLiteral, "")
      case NotSaved => CredentialAnswer(c.value, PersistSkip, "")
  }

  function Kept(answer: string, current: string): string {
    if answer == "" then current else answer
  }

  lemma ValueRead(t: Terminal, prompt: string, current: string, answer: string, rest: seq<string>)
    requires Trimmed(answer) && t.lines == [answer] + rest
    ensures var (v, t') := ValueAsked(t, prompt, current);
            v == Kept(answer, current) && t'.lines == rest && t'.secrets == t.secrets
  {
    TrimmedStays(answer);
    assert t.lines[1..] == rest;
  }

  function OneLineChoice(first: string): PersistChoice {
    if first == "1" then PersistKeyring else if first == "3" then PersistLiteral else PersistSkip
  }

  // What the menu makes of one more line.
  lemma MenuRead(t: Terminal, field: string, first: string, rest: seq<string>)
    requires t.lines == [first] + rest && Trimmed(first)
    ensures var (choice, extra, t') := ChoiceAsked(t, field);
            && t'.secrets == t.secrets
            && (first != "2" ==> t'.lines == rest && extra == "" && choice == OneLineChoice(first))
            && (first == "2" && rest != [] ==> t'.lines == rest[1..] && extra == Trim(rest[0]) && choice == PersistCommand)
  {
    TrimmedStays(first);
    assert t.lines[1..] == rest;
  }

  lemma ChoiceRead(t: Terminal, field: string, how: How, rest: seq<string>)
    requires how.ByCommand? ==> Trimmed(how.command)
    requires t.lines == LinesFor(Typed("", how)) + rest
    ensures var (choice, extra, t') := ChoiceAsked(t, field);
            CredentialAnswer("", choice, extra) == AnswerFor(Typed("", how)) && t'.lines == rest && t'.secrets == t.secrets
  {
    match how
    case ByKeyring => MenuRead(t, field, "1", rest);
    case ByLiteral => MenuRead(t, field, "3", rest);
    case NotSaved => MenuRead(t, field, "4", rest);
    case ByCommand(command) =>
      TrimmedStays(command);
      assert t.lines == ["2"] + ([command] + rest);
      MenuRead(t, field, "2", [command] + rest);
  }

  lemma CredentialRead(t: Terminal, prompt: string, c: Credential, rest: seq<string>, others: seq<Option<string>>)
    requires TypableCredential(c)
    requires t.lines == LinesFor(c) + rest && t.secrets == [SecretFor(c)] + others
    ensures var (answer, t') := CredentialAsked(t, prompt);
            answer == Some(AnswerFor(c)) && t'.lines == rest && t'.secrets == others
  {
    assert t.secrets[1..] == others;
    if c.Blank? {
      TrimmedStays("");
      assert t.lines == rest;
    } else {
      TrimmedStays(c.value);
      ChoiceRead(SecretAsked(t, prompt).1, prompt, c.how, rest);
    }
  }

  // The dialogue gives back what was typed: each plain setting, or its
  // default for a bare Enter, and each credential with its choice; whatever
  // is typed beyond the script is left to the next reader.
  lemma AnswersComeBack(a: Answers, current: Values, rest: seq<string>, others: seq<Option<string>>, out: string)
    requires Typable(a)
    ensures var t := Terminal(Script(a) + rest, [SecretFor(a.token), SecretFor(a.identity)] + others, out);
            var (result, t') := ConfigAsked(t, current);
            && result == Some(PromptResult(Kept(a.server, current.server), Kept(a.caller, current.caller),
                                           Kept(a.recipients, current.recipients),
                                           AnswerFor(a.token), AnswerFor(a.identity)))
            && t'.lines == rest && t'.secrets == others
  {
    var afterIdentity := LinesFor(a.identity) + rest;
    var afterCaller := [a.recipients] + afterIdentity;
    var afterToken := [a.caller] + afterCaller;
    var afterServer := LinesFor(a.token) + afterToken;
    var t := Terminal(Script(a) + rest, [SecretFor(a.token), SecretFor(a.identity)] + others, out);
    assert t.lines == [a.server] + afterServer;
    ValueRead(t, SERVER_LABEL, current.server, a.server, afterServer);
    var t1 := ValueAsked(t, SERVER_LABEL, current.server).1;
    assert t1.secrets == [SecretFor(a.token)] + ([SecretFor(a.identity)] + others);
    CredentialRead(t1, TOKEN_LABEL, a.token, afterToken, [SecretFor(a.identity)] + others);
    var t2 := CredentialAsked(t1, TOKEN_LABEL).1;
    ValueRead(t2, CALLER_LABEL, current.caller, a.caller, afterCaller);
    var t3 := ValueAsked(t2, CALLER_LABEL, current.caller).1;
    ValueRead(t3, RECIPIENTS_LABEL, current.recipients, a.recipients, afterIdentity);
    var t4 := ValueAsked(t3, RECIPIENTS_LABEL, current.recipients).1;
    CredentialRead(t4, IDENTITY_LABEL, a.identity, rest, others);
  }

  // -------------------------------------------------- space around the answers

  function TrimSecret(s: Option<string>): Option<string> {
    match s
    case None => None
    case Some(v) => Some(Trim(v))
  }

  // The same terminal with all that is still to be typed trimmed.
  function Tidied(t: Terminal): Terminal {
    t.(lines := Map(t.lines, Trim), secrets := Map(t.secrets, TrimSecret))
  }

  lemma TrimTwice(s: string)
    ensures Trim(Trim(s)) == Trim(s)
  {
    TrimTrims(s);
    TrimmedStays(Trim(s));
  }

  lemma ValueTidied(t: Terminal, prompt: string, current: string)
    ensures ValueAsked(Tidied(t), prompt, current) ==
            (ValueAsked(t, prompt, current).0, Tidied(ValueAsked(t, prompt, current).1))
  {
    if t.lines != [] {
      TrimTwice(t.lines[0]);
      assert Map(t.lines, Trim)[1..] == Map(t.lines[1..], Trim);
    }
  }

  lemma SecretTidied(t: Terminal, prompt: string)
    ensures SecretAsked(Tidied(t), prompt) == (SecretAsked(t, prompt).0, Tidied(SecretAsked(t, prompt).1))
  {
    if t.secrets != [] {
      if t.secrets[0].Some? { TrimTwice(t.secrets[0].value); }
      assert Map(t.secrets, TrimSecret)[1..] == Map(t.secrets[1..], TrimSecret);
    }
  }

  lemma LineTidied(t: Terminal)
    ensures Scanned(Tidied(t)).1 == Tidied(Scanned(t).1)
    ensures Scanned(Tidied(t)).0 == TrimSecret(Scanned(t).0)
    ensures Scanned(t).0.Some? ==> Trim(Scanned(Tidied(t)).0.value) == Trim(Scanned(t).0.value)
  {
    if t.lines != [] {
      TrimTwice(t.lines[0]);
      assert Map(t.lines, Trim)[1..] == Map(t.lines[1..], Trim);
    }
  }

  lemma ChoiceTidied(t: Terminal, field: string)
    ensures var (choice, extra, t') := ChoiceAsked(t, field);
            ChoiceAsked(Tidied(t), field) == (choice, extra, Tidied(t'))
  {
    var asked := Wrote(t, Menu(field));
    LineTidied(asked);
    LineTidied(Wrote(Scanned(asked).1, "command: "));
  }

  lemma CredentialTidied(t: Terminal, prompt: string)
    ensures CredentialAsked(Tidied(t), prompt) == (CredentialAsked(t, prompt).0, Tidied(CredentialAsked(t, prompt).1))
  {
    SecretTidied(t, prompt);
    ChoiceTidied(SecretAsked(t, prompt).1, prompt);
  }

  // White space around what is typed makes no difference to the dialogue.
  lemma ConfigTidied(t: Terminal, current: Values)
    ensures ConfigAsked(Tidied(t), current) == (ConfigAsked(t, current).0, Tidied(ConfigAsked(t, current).1))
  {
    ValueTidied(t, SERVER_LABEL, current.server);
    var t1 := ValueAsked(t, SERVER_LABEL, current.server).1;
    CredentialTidied(t1, TOKEN_LABEL);
    var t2 := CredentialAsked(t1, TOKEN_LABEL).1;
    ValueTidied(t2, CALLER_LABEL, current.caller);
    var t3 := ValueAsked(t2, CALLER_LABEL, current.caller).1;
    ValueTidied(t3, RECIPIENTS_LABEL, current.recipients);
    var t4 := ValueAsked(t3, RECIPIENTS_LABEL, current.recipients).1;
    CredentialTidied(t4, IDENTITY_LABEL);
  }

  // The terminal will see these answers typed, whatever the space around them.
  predicate Types(t: Terminal, a: Answers, rest: seq<string>, others: seq<Option<string>>) {
    Tidied(t) == Terminal(Script(a) + rest, [SecretFor(a.token), SecretFor(a.identity)] + others, t.out)
  }

  lemma TypedComesBack(t: Terminal, a: Answers, current: Values, rest: seq<string>, others: seq<Option<string>>)
    requires Typable(a) && Types(t, a, rest, others)
    ensures var (result, t') := ConfigAsked(t, current);
            && result == Some(PromptResult(Kept(a.server, current.server), Kept(a.caller, current.caller),
                                           Kept(a.recipients, current.recipients),
                                           AnswerFor(a.token), AnswerFor(a.identity)))
            && Tidied(t').lines == rest && Tidied(t').secrets == others
  {
    ConfigTidied(t, current);
    AnswersComeBack(a, current, rest, others, t.out);
  }

  // What a value prompt and a masked one write.
  lemma PromptsShow(t: Terminal, prompt: string, current: string)
    ensures ValueAsked(t, prompt, current).1.out == t.out + (prompt + " [" + current + "]: ")
    ensures SecretAsked(t, prompt).0.Some? ==> SecretAsked(t, prompt).1.out == t.out + (prompt + ": ") + "\n"
  {
  }

  // The whole dialogue when no credential is typed: the five prompts in order,
  // each plain one with its default.
  lemma BlankDialogue(t: Terminal, current: Values)
    requires |t.secrets| >= 2 && t.secrets[0] == t.secrets[1] == Some("")
    ensures ConfigAsked(t, current).1.out ==
            t.out + ("Server URL" + " [" + current.server + "]: ") +
            ("Token" + ": ") + "\n" +
            ("Caller identity (optional)" + " [" + current.caller + "]: ") +
            ("Recipients (comma-separated age public keys, optional)" + " [" + current.recipients + "]: ") +
            ("Identity (comma-separated age private keys)" + ": ") + "\n"
  {
    TrimmedStays("");
    PromptsShow(t, SERVER_LABEL, current.server);
    var t1 := ValueAsked(t, SERVER_LABEL, current.server).1;
    PromptsShow(t1, TOKEN_LABEL, "");
    var t2 := CredentialAsked(t1, TOKEN_LABEL).1;
    PromptsShow(t2, CALLER_LABEL, current.caller);
    var t3 := ValueAsked(t2, CALLER_LABEL, current.caller).1;
    PromptsShow(t3, RECIPIENTS_LABEL, current.recipients);
    var t4 := ValueAsked(t3, RECIPIENTS_LABEL, current.recipients).1;
    PromptsShow(t4, IDENTITY_LABEL, "");
  }

  // ------------------------------------------------------- what can be seen

  // The two terminals differ at most in what the masked reads will give, and
  // there in nothing but what is not blank.
  ghost predicate LooksLike(t: Terminal, u: Terminal) {
    && t.lines == u.lines && t.out == u.out && |t.secrets| == |u.secrets|
    && forall i :: 0 <= i < |t.secrets| ==> SameBlankness(t.secrets[i], u.secrets[i])
  }

  predicate SameBlankness(a: Option<string>, b: Option<string>) {
    (a.None? <==> b.None?) && (a.Some? ==> (Trim(a.value) == "" <==> Trim(b.value) == ""))
  }

  lemma CredentialStaysHidden(t: Terminal, u: Terminal, prompt: string)
    requires LooksLike(t, u)
    ensures LooksLike(CredentialAsked(t, prompt).1, CredentialAsked(u, prompt).1)
    ensures SameOutcome(CredentialAsked(t, prompt).0, CredentialAsked(u, prompt).0)
  {
    if t.secrets != [] { assert SameBlankness(t.secrets[0], u.secrets[0]); }
    assert LooksLike(SecretAsked(t, prompt).1, SecretAsked(u, prompt).1);
  }

  predicate SameOutcome(a: Option<CredentialAnswer>, b: Option<CredentialAnswer>) {
    a.None? <==> b.None?
  }

  lemma ValueStaysHidden(t: Terminal, u: Terminal, prompt: string, current: string)
    requires LooksLike(t, u)
    ensures LooksLike(ValueAsked(t, prompt, current).1, ValueAsked(u, prompt, current).1)
    ensures ValueAsked(t, prompt, current).0 == ValueAsked(u, prompt, current).0
  {
  }

  // Nothing the dialogue writes depends on what a typed secret is.
  lemma SecretsStayHidden(t: Terminal, u: Terminal, current: Values)
    requires LooksLike(t, u)
    ensures ConfigAsked(t, current).1.out == ConfigAsked(u, current).1.out
  {
    ValueStaysHidden(t, u, SERVER_LABEL, current.server);
    var t1, u1 := ValueAsked(t, SERVER_LABEL, current.server).1, ValueAsked(u, SERVER_LABEL, current.server).1;
    CredentialStaysHidden(t1, u1, TOKEN_LABEL);
    var t2, u2 := CredentialAsked(t1, TOKEN_LABEL).1, CredentialAsked(u1, TOKEN_LABEL).1;
    ValueStaysHidden(t2, u2, CALLER_LABEL, current.caller);
    var t3, u3 := ValueAsked(t2, CALLER_LABEL, current.caller).1, ValueAsked(u2, CALLER_LABEL, current.caller).1;
    ValueStaysHidden(t3, u3, RECIPIENTS_LABEL, current.recipients);
    var t4, u4 := ValueAsked(t3, RECIPIENTS_LABEL, current.recipients).1, ValueAsked(u3, RECIPIENTS_LABEL, current.recipients).1;
    CredentialStaysHidden(t4, u4, IDENTITY_LABEL);
  }
}
