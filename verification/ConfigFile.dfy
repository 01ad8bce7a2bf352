// The configuration file an interactive init writes, and how it is read back:
// rendering, persisting a credential, parsing, resolving a secret.
module ConfigFile {
  import opened Prelude
  import opened Quoting
  import opened Prompting

  // A credential as the file holds it: at most one of the two is non-empty.
  datatype RenderedSecret = RenderedSecret(literal: string, command: string)

  function KeyringCommand(field: string): string {
    "hush-hush-cli config keyring-get " + field
  }

  // Turns an answer into its representation in the file, storing the value in
  // the keyring first when that was chosen.
  method PersistCredential(keyring: map<string, string>, answer: CredentialAnswer, field: string)
    returns (rendered: RenderedSecret, keyring': map<string, string>)
    ensures (rendered, keyring') == Persisted(keyring, answer, field)
    ensures keyring' - {field} == keyring - {field}
    ensures keyring' != keyring ==> answer.choice.PersistKeyring? && keyring'[field] == answer.value
    ensures rendered.literal == "" || rendered.command == ""
    ensures rendered.literal != "" ==> answer.choice.PersistLiteral?
  {
    keyring' := keyring;
    match answer.choice {
      case PersistKeyring =>
        keyring' := keyring[field := answer.value];
        rendered := RenderedSecret("", KeyringCommand(field));
      case PersistCommand => rendered := RenderedSecret("", answer.extra);
      case PersistLiteral => rendered := RenderedSecret(answer.value, "");
      case PersistSkip => rendered := RenderedSecret("", "");
    }
  }

  function Persisted(keyring: map<string, string>, answer: CredentialAnswer, field: string)
    : (RenderedSecret, map<string, string>)
  {
    match answer.choice
    case PersistKeyring => (RenderedSecret("", KeyringCommand(field)), keyring[field := answer.value])
    case PersistCommand => (RenderedSecret("", answer.extra), keyring)
    case PersistLiteral => (RenderedSecret(answer.value, ""), keyring)
    case PersistSkip => (RenderedSecret("", ""), keyring)
  }

  // --------------------------------------------------------------- rendering

  datatype Settings = Settings(server: string, token: RenderedSecret, caller: string, recipients: string,
                               identity: RenderedSecret)

  function SettingLine(key: string, value: string, isPrint: char -> bool): string {
    key + ": " + Quote(value, isPrint)
  }

  function CommandLine(key: string, command: string, example: string, isPrint: char -> bool): string {
    if command != "" then SettingLine(key, command, isPrint) else example
  }

  // The comment lines of the file.
  datatype Notes = Notes(header: string, headerRest: string, tokenNote: string, tokenNoteRest: string,
                         tokenExample: string, identityNote: string, identityNoteRest: string, identityExample: string)

  const HEADER :=
    "# hush-hush-cli config file. " + "Flags and HUSH_HUSH_* " + "environment variables"
  const HEADER_REST :=
    "# both override these - see " + "README.md#configuration."
  const TOKEN_NOTE :=
    "# token_command runs a " + "command and uses its trimmed " + "stdout as the token"
  const TOKEN_NOTE_REST :=
    "# instead - it wins over the " + "literal value above if both " + "are set."
  const TOKEN_EXAMPLE :=
    "# token_command: \"pass show " + "hush-hush/write-token\""
  const IDENTITY_NOTE :=
    "# identity_command runs a " + "command and uses its trimmed " + "stdout as the"
  const IDENTITY_NOTE_REST :=
    "# identity instead - it wins " + "over the literal value above " + "if both are set."
  const IDENTITY_EXAMPLE :=
    "# identity_command: \"pass " + "show hush-hush/identity-key\""
  const NOTES := Notes(HEADER, HEADER_REST, TOKEN_NOTE, TOKEN_NOTE_REST, TOKEN_EXAMPLE,
                       IDENTITY_NOTE, IDENTITY_NOTE_REST, IDENTITY_EXAMPLE)

  // One line of the file: a comment, a setting, or a setting that is written
  // only when there is a command and is otherwise shown as an example.
  datatype Item =
    | Note(text: string)
    | Entry(key: string, value: string)
    | Choice(key: string, command: string, example: string)

  function LineOf(item: Item, isPrint: char -> bool): string {
    match item
    case Note(text) => text
    case Entry(key, value) => SettingLine(key, value, isPrint)
    case Choice(key, command, example) => CommandLine(key, command, example, isPrint)
  }

  function TopItems(s: Settings, n: Notes): seq<Item> {
    [Note(n.header), Note(n.headerRest),
     Entry("server", s.server), Entry("token", s.token.literal),
     Note(n.tokenNote), Note(n.tokenNoteRest), Choice("token_command", s.token.command, n.tokenExample)]
  }

  function BottomItems(s: Settings, n: Notes): seq<Item> {
    [Entry("caller", s.caller), Entry("recipients", s.recipients), Entry("identity", s.identity.literal),
     Note(n.identityNote), Note(n.identityNoteRest), Choice("identity_command", s.identity.command, n.identityExample)]
  }

  function FileItems(s: Settings, n: Notes): seq<Item> {
    TopItems(s, n) + BottomItems(s, n)
  }

  // The items' lines, each with its terminator.
  function Text(items: seq<Item>, isPrint: char -> bool): string {
    if items == [] then "" else LineOf(items[0], isPrint) + "\n" + Text(items[1..], isPrint)
  }

  lemma {:induction false} TextAppend(a: seq<Item>, b: seq<Item>, isPrint: char -> bool)
    ensures Text(a + b, isPrint) == Text(a, isPrint) + Text(b, isPrint)
  {
    if a == [] {
      assert a + b == b;
    } else {
      TextAppend(a[1..], b, isPrint);
      assert (a + b)[1..] == a[1..] + b && (a + b)[0] == a[0];
      Reassociate(LineOf(a[0], isPrint) + "\n", Text(a[1..], isPrint), Text(b, isPrint));
    }
  }

  lemma Reassociate(s: string, t: string, u: string)
    ensures s + (t + u) == s + t + u
  {
  }

  // Writes one line behind those already written.
  method Emit(text: string, ghost done: seq<Item>, item: Item, isPrint: char -> bool)
    returns (text': string, ghost done': seq<Item>)
    requires text == Text(done, isPrint)
    ensures done' == done + [item] && text' == Text(done + [item], isPrint)
  {
    TextAppend(done, [item], isPrint);
    assert Text([item], isPrint) == LineOf(item, isPrint) + "\n" + "";
    done' := done + [item];
    match item
    case Note(note) => text' := text + (note + "\n");
    case Entry(key, value) => text' := text + (SettingLine(key, value, isPrint) + "\n");
    case Choice(key, command, example) =>
      if command != "" {
        text' := text + (SettingLine(key, command, isPrint) + "\n");
      } else {
        text' := text + (example + "\n");
      }
  }

  // The file text, written from top to bottom.
  method Render(s: Settings, isPrint: char -> bool) returns (text: string)
    ensures text == Text(FileItems(s, NOTES), isPrint)
  {
    var top := RenderTop(s, NOTES, isPrint);
    var bottom := RenderBottom(s, NOTES, isPrint);
    TextAppend(TopItems(s, NOTES), BottomItems(s, NOTES), isPrint);
    return top + bottom;
  }

  method RenderTop(s: Settings, n: Notes, isPrint: char -> bool) returns (text: string)
    ensures text == Text(TopItems(s, n), isPrint)
  {
    ghost var done: seq<Item> := [];
    text := "";
    text, done := Emit(text, done, Note(n.header), isPrint);
    text, done := Emit(text, done, Note(n.headerRest), isPrint);
    text, done := Emit(text, done, Entry("server", s.server), isPrint);
    text, done := Emit(text, done, Entry("token", s.token.literal), isPrint);
    text, done := Emit(text, done, Note(n.tokenNote), isPrint);
    text, done := Emit(text, done, Note(n.tokenNoteRest), isPrint);
    text, done := Emit(text, done, Choice("token_command", s.token.command, n.tokenExample), isPrint);
    assert done == TopItems(s, n);
  }

  method RenderBottom(s: Settings, n: Notes, isPrint: char -> bool) returns (text: string)
    ensures text == Text(BottomItems(s, n), isPrint)
  {
    ghost var done: seq<Item> := [];
    text := "";
    text, done := Emit(text, done, Entry("caller", s.caller), isPrint);
    text, done := Emit(text, done, Entry("recipients", s.recipients), isPrint);
    text, done := Emit(text, done, Entry("identity", s.identity.literal), isPrint);
    text, done := Emit(text, done, Note(n.identityNote), isPrint);
    text, done := Emit(text, done, Note(n.identityNoteRest), isPrint);
    text, done := Emit(text, done, Choice("identity_command", s.identity.command, n.identityExample), isPrint);
    assert done == BottomItems(s, n);
  }

  // ----------------------------------------------------------------- reading

  // How many characters come before the first line break, if any.
  function LineLength(text: string): (n: nat)
    ensures n <= |text|
  {
    if text == "" || text[0] == '\n' then 0 else 1 + LineLength(text[1..])
  }

  // The lines of a text; the last may lack its terminator.
  function Lines(text: string): seq<string> {
    if text == "" then []
    else
      var n := LineLength(text);
      [text[..n]] + if n < |text| then Lines(text[n + 1..]) else []
  }

  predicate KeyChar(c: char) {
    'a' <= c <= 'z' || c == '_'
  }

  function KeyLength(line: string): (n: nat)
    ensures n <= |line|
  {
    if line != "" && KeyChar(line[0]) then 1 + KeyLength(line[1..]) else 0
  }

  datatype Parsed = Comment | Pair(key: string, value: string) | Malformed

  function ParseLine(line: string): Parsed {
    if line == "" || line[0] == '#' then Comment
    else
      var n := KeyLength(line);
      if n > 0 && n + 2 <= |line| && line[n..n + 2] == ": " && Unquote(line[n + 2..]).Some?
      then Pair(line[..n], Unquote(line[n + 2..]).value)
      else Malformed
  }

  // A mapping of plain keys to double-quoted values, a pair a line, with
  // comment lines in between; a repeated key is an error.
  function ParseLines(lines: seq<string>): Option<map<string, string>> {
    if lines == [] then Some(map[])
    else match (ParseLines(lines[..|lines| - 1]), ParseLine(lines[|lines| - 1]))
      case (Some(m), Comment) => Some(m)
      case (Some(m), Pair(key, value)) => if key in m then None else Some(m[key := value])
      case _ => None
  }

  function ReadConfig(text: string): Option<map<string, string>> {
    ParseLines(Lines(text))
  }

  function GetString(m: map<string, string>, key: string): string {
    if key in m then m[key] else ""
  }

  // --------------------------------------------------------------- resolving

  // What the shell prints for a command: the keyring reader prints the stored
  // value and a newline, anything else is up to run; none on failure.
  datatype Shell = Shell(keyring: map<string, string>, run: string -> Option<string>)

  function Output(shell: Shell, command: string): Option<string> {
    if command == KeyringCommand("token") then Stored(shell.keyring, "token")
    else if command == KeyringCommand("identity") then Stored(shell.keyring, "identity")
    else shell.run(command)
  }

  function Stored(keyring: map<string, string>, field: string): Option<string> {
    if field in keyring then Some(keyring[field] + "\n") else None
  }

  // Exactly one trailing newline goes.
  function TrimNewline(s: string): string {
    if s != "" && s[|s| - 1] == '\n' then s[..|s| - 1] else s
  }

  // The command wins over the literal if both are set; none when it fails.
  function ResolveSecret(shell: Shell, literal: string, command: string): Option<string> {
    if command == "" then Some(literal)
    else match Output(shell, command)
      case None => None
      case Some(out) => Some(TrimNewline(out))
  }

  // What a command's output, if any, makes of a secret: exactly one newline
  // at its end goes, and anything else stays.
  ghost predicate ReadsAs(out: Option<string>, secret: Option<string>) {
    && (out.None? ==> secret.None?)
    && (forall s :: out == Some(s + "\n") ==> secret == Some(s))
    && (out.Some? && (out.value == "" || out.value[|out.value| - 1] != '\n') ==> secret == out)
  }

  // With a command, the literal is of no account and the output decides;
  // without one, the literal is the secret.
  lemma ResolveMeans(shell: Shell, literal: string, other: string, command: string)
    ensures ResolveSecret(shell, literal, "") == Some(literal)
    ensures command != "" ==> ResolveSecret(shell, literal, command) == ResolveSecret(shell, other, command)
    ensures command != "" ==> ReadsAs(Output(shell, command), ResolveSecret(shell, literal, command))
  {
    if command != "" && Output(shell, command).Some? {
      OutputReadsAs(Output(shell, command).value);
    }
  }

  lemma OutputReadsAs(out: string)
    ensures ReadsAs(Some(out), Some(TrimNewline(out)))
  {
    forall s | out == s + "\n" ensures TrimNewline(out) == s {
      assert out[|out| - 1] == '\n' && out[..|out| - 1] == s;
    }
  }

  // A command of the user's own prints what the shell makes of it.
  lemma CommandResolves(shell: Shell, literal: string, command: string, s: string)
    requires command != "" && command != KeyringCommand("token") && command != KeyringCommand("identity")
    ensures shell.run(command) == Some(s + "\n") ==> ResolveSecret(shell, literal, command) == Some(s)
    ensures shell.run(command) == Some(s) && (s == "" || s[|s| - 1] != '\n') ==>
              ResolveSecret(shell, literal, command) == Some(s)
    ensures shell.run(command) == None ==> ResolveSecret(shell, literal, command) == None
  {
    ResolveMeans(shell, literal, literal, command);
  }

  // The generated reader gives back what the keyring holds, to the letter.
  lemma KeyringResolves(shell: Shell, literal: string, field: string)
    requires field == "token" || field == "identity"
    ensures ResolveSecret(shell, literal, KeyringCommand(field)) ==
            if field in shell.keyring then Some(shell.keyring[field]) else None
  {
    assert |KeyringCommand("token")| != |KeyringCommand("identity")| && |KeyringCommand(field)| > 0;
    ResolveMeans(shell, literal, literal, KeyringCommand(field));
  }

  // -------------------------------------------------------------- round trip

  lemma {:induction false} LineEnds(line: string, rest: string)
    requires '\n' !in line
    ensures LineLength(line + "\n" + rest) == |line|
  {
    if line == "" {
      assert line + "\n" + rest == "\n" + rest;
    } else {
      LineEnds(line[1..], rest);
      assert (line + "\n" + rest)[1..] == line[1..] + "\n" + rest;
    }
  }

  lemma {:induction false} LinesOfText(items: seq<Item>, isPrint: char -> bool)
    requires forall i :: 0 <= i < |items| ==> '\n' !in LineOf(items[i], isPrint)
    ensures |Lines(Text(items, isPrint))| == |items|
    ensures forall i :: 0 <= i < |items| ==> Lines(Text(items, isPrint))[i] == LineOf(items[i], isPrint)
  {
    if items != [] {
      var line, rest := LineOf(items[0], isPrint), Text(items[1..], isPrint);
      LineEnds(line, rest);
      LinesOfText(items[1..], isPrint);
      assert (line + "\n" + rest)[..|line|] == line;
      assert (line + "\n" + rest)[|line| + 1..] == rest;
    }
  }

  predicate Key(key: string) {
    key != "" && forall i :: 0 <= i < |key| ==> KeyChar(key[i])
  }

  lemma {:induction false} KeyLengthOf(key: string, rest: string)
    requires forall i :: 0 <= i < |key| ==> KeyChar(key[i])
    requires rest != "" && !KeyChar(rest[0])
    ensures KeyLength(key + rest) == |key|
  {
    if key != "" {
      KeyLengthOf(key[1..], rest);
      assert (key + rest)[1..] == key[1..] + rest;
    } else {
      assert key + rest == rest;
    }
  }

  lemma LineParts(key: string, quoted: string)
    requires Key(key)
    ensures var line := key + ": " + quoted;
            && KeyLength(line) == |key| && line[..|key|] == key
            && line[|key|..|key| + 2] == ": " && line[|key| + 2..] == quoted
            && line[0] == key[0] && KeyChar(key[0])
            && ('\n' !in quoted ==> '\n' !in line)
  {
    var line := key + ": " + quoted;
    assert line == key + (": " + quoted);
    KeyLengthOf(key, ": " + quoted);
    assert forall i :: 0 <= i < |key| ==> key[i] != '\n';
  }

  // A written setting is one line and parses to its own key and value,
  // whatever characters the value holds.
  lemma SettingReadsBack(key: string, value: string, isPrint: char -> bool)
    requires Key(key) && PrintTable(isPrint)
    ensures '\n' !in SettingLine(key, value, isPrint)
    ensures ParseLine(SettingLine(key, value, isPrint)) == Pair(key, value)
  {
    QuoteHasNoNewline(value, isPrint);
    QuoteReadsBack(value, isPrint);
    LineParts(key, Quote(value, isPrint));
  }

  predicate IsComment(line: string) {
    line != "" && line[0] == '#' && '\n' !in line
  }

  predicate AllComments(n: Notes) {
    IsComment(n.header) && IsComment(n.headerRest) && IsComment(n.tokenNote) && IsComment(n.tokenNoteRest) &&
    IsComment(n.tokenExample) && IsComment(n.identityNote) && IsComment(n.identityNoteRest) && IsComment(n.identityExample)
  }

  lemma HeaderIsComment()
    ensures IsComment(HEADER)
  {
    assert IsComment("# hush-hush-cli config file. ");
    assert '\n' !in "Flags and HUSH_HUSH_* ";
    assert '\n' !in "environment variables";
  }

  lemma HeaderRestIsComment()
    ensures IsComment(HEADER_REST)
  {
    assert IsComment("# both override these - see ");
    assert '\n' !in "README.md#configuration.";
  }

  lemma TokenNoteIsComment()
    ensures IsComment(TOKEN_NOTE)
  {
    assert IsComment("# token_command runs a ");
    assert '\n' !in "command and uses its trimmed ";
    assert '\n' !in "stdout as the token";
  }

  lemma TokenNoteRestIsComment()
    ensures IsComment(TOKEN_NOTE_REST)
  {
    assert IsComment("# instead - it wins over the ");
    assert '\n' !in "literal value above if both ";
    assert '\n' !in "are set.";
  }

  lemma TokenExampleIsComment()
    ensures IsComment(TOKEN_EXAMPLE)
  {
    assert IsComment("# token_command: \"pass show ");
    assert '\n' !in "hush-hush/write-token\"";
  }

  lemma IdentityNoteIsComment()
    ensures IsComment(IDENTITY_NOTE)
  {
    assert IsComment("# identity_command runs a ");
    assert '\n' !in "command and uses its trimmed ";
    assert '\n' !in "stdout as the";
  }

  lemma IdentityNoteRestIsComment()
    ensures IsComment(IDENTITY_NOTE_REST)
  {
    assert IsComment("# identity instead - it wins ");
    assert '\n' !in "over the literal value above ";
    assert '\n' !in "if both are set.";
  }

  lemma IdentityExampleIsComment()
    ensures IsComment(IDENTITY_EXAMPLE)
  {
    assert IsComment("# identity_command: \"pass ");
    assert '\n' !in "show hush-hush/identity-key\"";
  }

  lemma NotesAreComments()
    ensures AllComments(NOTES)
  {
    HeaderIsComment();
    HeaderRestIsComment();
    TokenNoteIsComment();
    TokenNoteRestIsComment();
    TokenExampleIsComment();
    IdentityNoteIsComment();
    IdentityNoteRestIsComment();
    IdentityExampleIsComment();
  }

  // --------------------------------------------------------- what a file says

  // The pair an item contributes, if any.
  function Yields(item: Item): Option<(string, string)> {
    match item
    case Note(_) => None
    case Entry(key, value) => Some((key, value))
    case Choice(key, command, _) => if command != "" then Some((key, command)) else None
  }

  // The mapping the items stand for.
  function Mapping(items: seq<Item>): map<string, string> {
    if items == [] then map[]
    else
      var m := Mapping(items[..|items| - 1]);
      match Yields(items[|items| - 1])
      case None => m
      case Some((key, value)) => m[key := value]
  }

  ghost predicate Proper(item: Item) {
    match item
    case Note(text) => IsComment(text)
    case Entry(key, _) => Key(key)
    case Choice(key, _, example) => Key(key) && IsComment(example)
  }

  // Well-formed items without a repeated key.
  ghost predicate Legible(items: seq<Item>) {
    && (forall i :: 0 <= i < |items| ==> Proper(items[i]))
    && forall i, j :: 0 <= i < j < |items| && !items[i].Note? && !items[j].Note? ==> items[i].key != items[j].key
  }

  lemma LineReadsBack(item: Item, isPrint: char -> bool)
    requires PrintTable(isPrint) && Proper(item)
    ensures '\n' !in LineOf(item, isPrint)
    ensures ParseLine(LineOf(item, isPrint)) ==
            match Yields(item)
            case None => Comment
            case Some((key, value)) => Pair(key, value)
  {
    match item
    case Note(_) =>
    case Entry(key, value) => SettingReadsBack(key, value, isPrint);
    case Choice(key, command, _) => if command != "" { SettingReadsBack(key, command, isPrint); }
  }

  // A key is in the mapping exactly when some item contributes it.
  lemma {:induction false} MappingKeys(items: seq<Item>, key: string)
    ensures key in Mapping(items) <==> exists i :: 0 <= i < |items| && Yields(items[i]).Some? && Yields(items[i]).value.0 == key
  {
    if items != [] {
      var front, last := items[..|items| - 1], items[|items| - 1];
      MappingKeys(front, key);
      assert items == front + [last];
      if Yields(last).Some? && Yields(last).value.0 == key { assert items[|items| - 1] == last; }
      if i :| 0 <= i < |front| && Yields(front[i]).Some? && Yields(front[i]).value.0 == key { assert items[i] == front[i]; }
    }
  }

  // And then it has that item's value.
  lemma {:induction false} MappingValues(items: seq<Item>, i: nat)
    requires i < |items| && !items[i].Note?
    requires Legible(items)
    ensures GetString(Mapping(items), items[i].key) ==
            if Yields(items[i]).Some? then Yields(items[i]).value.1 else ""
  {
    var front, last := items[..|items| - 1], items[|items| - 1];
    assert items == front + [last];
    assert forall j :: 0 <= j < |front| ==> front[j] == items[j];
    if i < |front| {
      MappingValues(front, i);
    } else {
      MappingKeys(front, last.key);
    }
  }

  lemma {:induction false} ItemsReadBack(items: seq<Item>, lines: seq<string>, isPrint: char -> bool)
    requires PrintTable(isPrint) && Legible(items)
    requires |lines| == |items| && forall i :: 0 <= i < |items| ==> lines[i] == LineOf(items[i], isPrint)
    ensures ParseLines(lines) == Some(Mapping(items))
  {
    if items != [] {
      var front, last := items[..|items| - 1], items[|items| - 1];
      assert Legible(front);
      ItemsReadBack(front, lines[..|lines| - 1], isPrint);
      LineReadsBack(last, isPrint);
      NewKey(items);
    }
  }

  lemma NewKey(items: seq<Item>)
    requires items != [] && Legible(items)
    ensures var last := items[|items| - 1]; Yields(last).Some? ==> last.key !in Mapping(items[..|items| - 1])
  {
    var front, last := items[..|items| - 1], items[|items| - 1];
    if Yields(last).Some? {
      MappingKeys(front, last.key);
    }
  }

  // Rendering then reading gives back exactly what the items say; no value
  // spills into another key, whatever characters it contains.
  lemma TextReadsBack(items: seq<Item>, isPrint: char -> bool)
    requires PrintTable(isPrint) && Legible(items)
    ensures ReadConfig(Text(items, isPrint)) == Some(Mapping(items))
  {
    forall i | 0 <= i < |items| ensures '\n' !in LineOf(items[i], isPrint) {
      LineReadsBack(items[i], isPrint);
    }
    LinesOfText(items, isPrint);
    ItemsReadBack(items, Lines(Text(items, isPrint)), isPrint);
  }

  lemma KeysAreKeys()
    ensures Key("server") && Key("token") && Key("token_command") && Key("caller")
    ensures Key("recipients") && Key("identity") && Key("identity_command")
    ensures "server" != "caller"
    ensures |"server"| == 6 && |"token"| == 5 && |"token_command"| == 13 && |"caller"| == 6
    ensures |"recipients"| == 10 && |"identity"| == 8 && |"identity_command"| == 16
  {
    assert "server"[0] != "caller"[0];
  }

  lemma FileIsLegible(s: Settings, n: Notes)
    requires AllComments(n)
    ensures Legible(FileItems(s, n))
  {
    KeysAreKeys();
  }

  // The file an init writes, read back: every setting under its own key, the
  // commands only where one was chosen, and nothing else.
  lemma FileReadsBack(s: Settings, isPrint: char -> bool)
    requires PrintTable(isPrint)
    ensures var m := ReadConfig(Text(FileItems(s, NOTES), isPrint));
            && m.Some?
            && GetString(m.value, "server") == s.server
            && GetString(m.value, "caller") == s.caller
            && GetString(m.value, "recipients") == s.recipients
            && GetString(m.value, "token") == s.token.literal
            && GetString(m.value, "token_command") == s.token.command
            && GetString(m.value, "identity") == s.identity.literal
            && GetString(m.value, "identity_command") == s.identity.command
  {
    NotesAreComments();
    var l := FileItems(s, NOTES);
    FileIsLegible(s, NOTES);
    TextReadsBack(l, isPrint);
    MappingValues(l, 2);
    MappingValues(l, 3);
    MappingValues(l, 6);
    MappingValues(l, 7);
    MappingValues(l, 8);
    MappingValues(l, 9);
    MappingValues(l, 12);
  }
}
