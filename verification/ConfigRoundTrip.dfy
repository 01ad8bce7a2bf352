// Prompt, persist, render, read back, resolve: the user gets back what was
// typed.
module ConfigRoundTrip {
  import opened Prelude
  import opened Quoting
  import opened Prompting
  import opened ConfigFile

  // The settings to write, and the keyring left behind.
  function Prepared(r: PromptResult, keyring: map<string, string>): (Settings, map<string, string>) {
    var (token, k1) := Persisted(keyring, r.token, "token");
    var (identity, k2) := Persisted(k1, r.identity, "identity");
    (Settings(r.server, token, r.caller, r.recipients, identity), k2)
  }

  // The whole interactive flow, from the console to the file's text.
  method WriteInteractive(console: Console, current: Values, keyring: map<string, string>, isPrint: char -> bool)
    returns (text: Option<string>, keyring': map<string, string>)
    modifies console
    ensures var (result, t) := ConfigAsked(old(console.View()), current);
            && console.View() == t
            && (result.None? ==> text.None? && keyring' == keyring)
            && (result.Some? ==>
                  text == Some(Text(FileItems(Prepared(result.value, keyring).0, NOTES), isPrint)) &&
                  keyring' == Prepared(result.value, keyring).1)
  {
    var result := console.PromptConfig(current);
    if result.None? {
      return None, keyring;
    }
    var token, k1 := PersistCredential(keyring, result.value.token, "token");
    var identity, k2 := PersistCredential(k1, result.value.identity, "identity");
    var written := Render(Settings(result.value.server, token, result.value.caller, result.value.recipients, identity), isPrint);
    return Some(written), k2;
  }

  // What a later command should get for a credential.
  ghost predicate AsChosen(c: Credential, shell: Shell, secret: Option<string>) {
    if c.Blank? then secret == Some("")
    else match c.how
      case ByKeyring => secret == Some(c.value)
      case ByLiteral => secret == Some(c.value)
      case NotSaved => secret == Some("")
      case ByCommand(command) => if command == "" then secret == Some("") else ReadsAs(Output(shell, command), secret)
  }

  // Resolving what was persisted gives what was chosen, in any later keyring
  // that still holds the stored value.
  lemma PersistedResolves(c: Credential, field: string, keyring: map<string, string>, shell: Shell)
    requires field == "token" || field == "identity"
    requires c.Typed? && c.how.ByKeyring? ==> field in shell.keyring && shell.keyring[field] == c.value
    ensures var rendered := Persisted(keyring, AnswerFor(c), field).0;
            AsChosen(c, shell, ResolveSecret(shell, rendered.literal, rendered.command))
  {
    var rendered := Persisted(keyring, AnswerFor(c), field).0;
    if c.Typed? && c.how.ByKeyring? {
      KeyringResolves(shell, rendered.literal, field);
    } else {
      ResolveMeans(shell, rendered.literal, rendered.literal, rendered.command);
    }
  }

  // Both credentials at once: the second one's keyring entry does not disturb
  // the first's.
  lemma SecretsResolve(a: Answers, r: PromptResult, keyring: map<string, string>, run: string -> Option<string>)
    requires r.token == AnswerFor(a.token) && r.identity == AnswerFor(a.identity)
    ensures var (settings, k) := Prepared(r, keyring);
            && AsChosen(a.token, Shell(k, run), ResolveSecret(Shell(k, run), settings.token.literal, settings.token.command))
            && AsChosen(a.identity, Shell(k, run),
                        ResolveSecret(Shell(k, run), settings.identity.literal, settings.identity.command))
  {
    var (settings, k) := Prepared(r, keyring);
    var k1 := Persisted(keyring, r.token, "token").1;
    assert |"token"| != |"identity"|;
    PersistedResolves(a.token, "token", keyring, Shell(k, run));
    PersistedResolves(a.identity, "identity", k1, Shell(k, run));
  }

  // The whole round trip. Type any answers at the prompts, with whatever
  // space around them; persist, render and read the file back: the plain
  // settings are those typed, trimmed (or the defaults kept), and each
  // credential resolves to what was typed when it was saved in the keyring or
  // literally, to what its command prints when a command was given, and to
  // nothing when it was not saved.
  lemma RoundTrip(t: Terminal, a: Answers, current: Values, rest: seq<string>, others: seq<Option<string>>,
                  keyring: map<string, string>, run: string -> Option<string>, isPrint: char -> bool)
    requires Typable(a) && PrintTable(isPrint) && Types(t, a, rest, others)
    ensures var result := ConfigAsked(t, current).0;
            && result.Some?
            && var (settings, k) := Prepared(result.value, keyring);
               var file, shell := ReadConfig(Text(FileItems(settings, NOTES), isPrint)), Shell(k, run);
            && file.Some?
            && GetString(file.value, "server") == Kept(a.server, current.server)
            && GetString(file.value, "caller") == Kept(a.caller, current.caller)
            && GetString(file.value, "recipients") == Kept(a.recipients, current.recipients)
            && AsChosen(a.token, shell, ResolveSecret(shell, GetString(file.value, "token"),
                                                      GetString(file.value, "token_command")))
            && AsChosen(a.identity, shell, ResolveSecret(shell, GetString(file.value, "identity"),
                                                         GetString(file.value, "identity_command")))
  {
    TypedComesBack(t, a, current, rest, others);
    var r := ConfigAsked(t, current).0.value;
    var (settings, k) := Prepared(r, keyring);
    FileReadsBack(settings, isPrint);
    SecretsResolve(a, r, keyring, run);
  }
}
