/** memory-lane: a walk through past conversations one message at a time. Each
    run takes the first spoken message after the last one captured, appends it
    to the chat log of the message's project, and `--clear` empties that log
    and moves the walk past the message. */
module MemoryLane {
  import opened Wrappers
  import opened Text
  import opened MemoryTypes
  import Files

  /** A row of the speech queue. */
  datatype Message = Message(id: int, timestamp: int, profile: string, role: string, originalText: string,
                             images: Option<string>, cwd: string)

  // ---------------------------------------------------------------------------
  // Chat log names
  // ---------------------------------------------------------------------------

  /** Every `/` replaced by `_`. */
  function Underscored(s: string): (r: string)
    ensures |r| == |s| && '/' !in r
    ensures forall i :: 0 <= i < |s| ==> r[i] == (if s[i] == '/' then '_' else s[i])
  {
    if s == [] then [] else [if s[0] == '/' then '_' else s[0]] + Underscored(s[1..])
  }

  /** `cwdToFilename`: slashes become underscores, one leading underscore is
      dropped and `.md` is appended. */
  function CwdToFilename(cwd: string): (name: string)
    ensures '/' !in name && EndsWith(name, ".md")
  {
    var u := Underscored(cwd);
    var stem := if u != [] && u[0] == '_' then u[1..] else u;
    assert forall i :: 0 <= i < |stem| ==> stem[i] in u;
    stem + ".md"
  }

  /** Every `_` replaced by `/`: the way back from a chat log name. */
  function Slashed(s: string): (r: string)
    ensures |r| == |s|
    ensures forall i :: 0 <= i < |s| ==> r[i] == (if s[i] == '_' then '/' else s[i])
  {
    if s == [] then [] else [if s[0] == '_' then '/' else s[0]] + Slashed(s[1..])
  }

  /** An absolute project directory without underscores can be read back from
      its chat log name. */
  lemma CwdFromFilename(cwd: string)
    requires cwd != [] && cwd[0] == '/' && '_' !in cwd
    ensures var name := CwdToFilename(cwd);
      "/" + Slashed(name[..|name| - 3]) == cwd
  {
    var name := CwdToFilename(cwd);
    var stem := Underscored(cwd)[1..];
    assert name[..|name| - 3] == stem;
    var back := "/" + Slashed(stem);
    assert forall i :: 0 <= i < |cwd| ==> back[i] == cwd[i] by {
      forall i | 0 <= i < |cwd| ensures back[i] == cwd[i] {
        if i > 0 {
          assert back[i] == Slashed(stem)[i - 1];
          assert cwd[i] in cwd;
        }
      }
    }
  }

  /** Two projects whose paths differ only in `/` against `_` share one chat
      log. */
  lemma CwdNamesCollide()
    ensures CwdToFilename("/a/b") == CwdToFilename("/a_b") == "a_b.md"
  {
    assert Underscored("/a/b") == "_a_b";
    assert Underscored("/a_b") == "_a_b";
  }

  // ---------------------------------------------------------------------------
  // Formatting a message
  // ---------------------------------------------------------------------------

  /** The speaker label: the assistant is Claudia, anyone else Michael. */
  function RoleLabel(role: string): string {
    if role == "assistant" then "**Claudia**" else "**Michael**"
  }

  /** The image paths of a message: the list split on commas, each trimmed. */
  function ImagePaths(images: string): (paths: seq<string>)
    ensures |paths| == |Split(images, ',')|
    ensures forall i :: 0 <= i < |paths| ==> paths[i] == Trim(Split(images, ',')[i])
  {
    var parts := Split(images, ',');
    seq(|parts|, i requires 0 <= i < |parts| => Trim(parts[i]))
  }

  /** A list written as trimmed paths separated by bare commas is read back
      path for path. */
  lemma ImagePathsRoundTrip(paths: seq<string>)
    requires |paths| >= 1
    requires forall i :: 0 <= i < |paths| ==> ',' !in paths[i] && Trimmed(paths[i])
    ensures ImagePaths(Join(paths, ",")) == paths
  {
    SplitJoin(paths, ',');
    forall i | 0 <= i < |paths| ensures Trim(paths[i]) == paths[i] {
      TrimTrimmed(paths[i]);
    }
  }

  /** `formatMessage`, given the ISO text `stamp` of the message's time: a
      heading with the speaker and the time, the text, and a line listing the
      images when the message has any. */
  function FormatMessage(msg: Message, stamp: string): (text: string)
    ensures var head := "### " + RoleLabel(msg.role) + " (" + stamp + ")\n\n" + msg.originalText + "\n\n";
      StartsWith(text, head) &&
      (Truthy(msg.images) ==> text == head + "*Images: " + Join(ImagePaths(msg.images.value), ", ") + "*\n\n") &&
      (!Truthy(msg.images) ==> text == head)
  {
    var content := "### " + RoleLabel(msg.role) + " (" + stamp + ")\n\n" + msg.originalText + "\n\n";
    if Truthy(msg.images) then content + "*Images: " + Join(ImagePaths(msg.images.value), ", ") + "*\n\n"
    else content
  }

  // ---------------------------------------------------------------------------
  // The cursor
  // ---------------------------------------------------------------------------

  /** The leading decimal digits of `s`. */
  function DigitPrefix(s: string): (d: string)
    ensures AllDigits(d) && StartsWith(s, d)
    ensures |d| < |s| ==> !IsDigit(s[|d|])
  {
    if s == [] || !IsDigit(s[0]) then [] else [s[0]] + DigitPrefix(s[1..])
  }

  lemma {:induction false} DigitPrefixOfDigits(s: string)
    requires AllDigits(s)
    ensures DigitPrefix(s) == s
  {
    if s != [] {
      DigitPrefixOfDigits(s[1..]);
    }
  }

  /** `parseInt(s, 10)`: leading white space and one sign are skipped, then
      the leading digits are read; `None` is `NaN`, when there are none. */
  function ParseInt(s: string): Option<int> {
    var t := TrimStart(s);
    if t != [] && t[0] == '-' then Negated(Unsigned(t[1..]))
    else if t != [] && t[0] == '+' then Unsigned(t[1..])
    else Unsigned(t)
  }

  /** The value of the leading digits, if there are any. */
  function Unsigned(s: string): Option<int> {
    var digits := DigitPrefix(s);
    if digits == [] then None else Some(DigitsValue(digits))
  }

  function Negated(n: Option<int>): Option<int> {
    if n.None? then None else Some(-n.value)
  }

  /** A string starting with a digit has no white space or sign to skip. */
  lemma ParseUnsigned(s: string)
    requires s != [] && IsDigit(s[0])
    ensures ParseInt(s) == Unsigned(s)
  {
    VisibleNotSpace(s[0]);
    TrimStartUnchanged(s);
  }

  /** The digits of a number, read back. */
  lemma ParseDigits(k: nat)
    ensures Unsigned(Decimal(k)) == Some(k)
    ensures ParseInt(Decimal(k)) == Some(k)
  {
    var d := Decimal(k);
    DigitPrefixOfDigits(d);
    DecimalRoundTrip(k);
    assert IsDigit(d[0]);
    ParseUnsigned(d);
  }

  /** A minus sign and digits, read back. */
  lemma ParseNegative(k: nat)
    ensures ParseInt("-" + Decimal(k)) == Some(-(k as int))
  {
    var d := Decimal(k);
    var s := "-" + d;
    assert s[0] == '-' && !IsJsSpace(s[0]);
    TrimStartUnchanged(s);
    assert ParseInt(s) == Negated(Unsigned(s[1..]));
    assert s[1..] == d;
    ParseDigits(k);
    NegatedSome(Unsigned(d), k);
  }

  lemma NegatedSome(n: Option<int>, x: int)
    requires n == Some(x)
    ensures Negated(n) == Some(-x)
  {
  }

  /** A saved id reads back as itself. */
  lemma ParseIntRoundTrip(n: int)
    ensures ParseInt(IntText(n)) == Some(n)
  {
    if n < 0 {
      var k: nat := -n;
      assert IntText(n) == "-" + Decimal(k);
      ParseNegative(k);
    } else {
      ParseDigits(n);
    }
  }

  /** A saved id has no surrounding white space. */
  lemma IntTextTrimmed(n: int)
    ensures Trim(IntText(n)) == IntText(n)
  {
    var s := IntText(n);
    var d := Decimal(if n < 0 then -n else n);
    assert IsDigit(d[0]) && IsDigit(d[|d| - 1]);
    assert s[|s| - 1] == d[|d| - 1];
    TrimTrimmed(s);
  }

  /** Only the two speaking profiles are walked. */
  predicate Spoken(m: Message) { m.profile == "ara" || m.profile == "claudia" }

  predicate After(m: Message, last: int) { m.id > last && Spoken(m) }

  /** The next message: the spoken message with the lowest id above `last`. */
  function NextMessage(rows: seq<Message>, last: int): (next: Option<Message>)
    ensures next.Some? ==>
      next.value in rows && After(next.value, last) && (forall m :: m in rows && After(m, last) ==> next.value.id <= m.id)
    ensures next.None? ==> forall m :: m in rows ==> !After(m, last)
  {
    if rows == [] then None
    else
      var rest := NextMessage(rows[1..], last);
      assert forall m :: m in rows ==> m == rows[0] || m in rows[1..];
      if !After(rows[0], last) then rest
      else if rest.None? || rows[0].id <= rest.value.id then Some(rows[0])
      else rest
  }

  // ---------------------------------------------------------------------------
  // State files
  // ---------------------------------------------------------------------------

  /** The state directory under the home directory. */
  function StateDir(home: string): string { JoinPath(home, ".claudia/memory-lane") }

  function LastIdFile(stateDir: string): string { JoinPath(stateDir, "last_id.txt") }

  function CurrentProjectFile(stateDir: string): string { JoinPath(stateDir, "current_project.txt") }

  /** `getChatLogPath`. */
  function ChatLogPath(stateDir: string, cwd: string): string {
    JoinPath(JoinPath(stateDir, "chat-logs"), CwdToFilename(cwd))
  }

  /** Different names in the same directory are different paths. */
  lemma JoinPathDiffers(dir: string, a: string, b: string)
    requires a != b
    ensures JoinPath(dir, a) != JoinPath(dir, b)
  {
    if dir != "" {
      var n := |dir| + 1;
      assert a == JoinPath(dir, a)[n..];
      assert b == JoinPath(dir, b)[n..];
    }
  }

  /** A chat log sits in the state directory under `chat-logs/`. */
  lemma ChatLogInStateDir(stateDir: string, cwd: string)
    ensures ChatLogPath(stateDir, cwd) == JoinPath(stateDir, "chat-logs" + "/" + CwdToFilename(cwd))
  {
    JoinPathNested(stateDir, "chat-logs", CwdToFilename(cwd));
  }

  lemma JoinPathNested(dir: string, sub: string, name: string)
    requires sub != ""
    ensures JoinPath(JoinPath(dir, sub), name) == JoinPath(dir, sub + "/" + name)
  {
    if dir != "" {
      assert dir + "/" + sub + "/" + name == dir + "/" + (sub + "/" + name);
    }
  }

  /** The chat logs, the last id and the current project are three different
      files. */
  lemma StateFilesDistinct(stateDir: string, cwd: string)
    ensures ChatLogPath(stateDir, cwd) != LastIdFile(stateDir)
    ensures ChatLogPath(stateDir, cwd) != CurrentProjectFile(stateDir)
    ensures LastIdFile(stateDir) != CurrentProjectFile(stateDir)
  {
    var tail := "chat-logs" + "/" + CwdToFilename(cwd);
    ChatLogInStateDir(stateDir, cwd);
    assert tail[1] == 'h';
    JoinPathDiffers(stateDir, tail, "last_id.txt");
    JoinPathDiffers(stateDir, tail, "current_project.txt");
    JoinPathDiffers(stateDir, "last_id.txt", "current_project.txt");
  }

  /** `getLastId`: the trimmed contents of the last-id file read as an
      integer, 0 when there is no such file. */
  function LastId(files: map<string, string>, stateDir: string): Option<int> {
    var path := LastIdFile(stateDir);
    if path in files then ParseInt(Trim(files[path])) else Some(0)
  }

  /** `getCurrentProject`: the trimmed contents of the current-project file. */
  function CurrentProject(files: map<string, string>, stateDir: string): Option<string> {
    var path := CurrentProjectFile(stateDir);
    if path in files then Some(Trim(files[path])) else None
  }

  // ---------------------------------------------------------------------------
  // One run
  // ---------------------------------------------------------------------------

  datatype Outcome =
    | CaughtUp
    | Cleared(msg: Message)
    | Shown(msg: Message, text: string)

  /** Whether the first argument is `--clear`. */
  predicate IsClear(args: seq<string>) { |args| > 0 && args[0] == "--clear" }

  /** The message a run works on, if any: the next one after the saved id. A
      saved id that does not read as a number matches no row. */
  function RunMessage(files: map<string, string>, stateDir: string, rows: seq<Message>): Option<Message> {
    var last := LastId(files, stateDir);
    if last.None? then None else NextMessage(rows, last.value)
  }

  /** The files after the current project is brought up to date. */
  function WithProject(files: map<string, string>, stateDir: string, cwd: string): map<string, string> {
    if CurrentProject(files, stateDir) != Some(cwd) then files[CurrentProjectFile(stateDir) := cwd] else files
  }

  /** What one run does: the outcome and the files afterwards. `stampOf` is
      `formatTimestamp`. */
  function Run(files: map<string, string>, stateDir: string, args: seq<string>, rows: seq<Message>,
               stampOf: int -> string): (map<string, string>, Outcome)
  {
    var next := RunMessage(files, stateDir, rows);
    if next.None? then (files, CaughtUp)
    else
      var msg := next.value;
      var log := ChatLogPath(stateDir, msg.cwd);
      var saved := WithProject(files, stateDir, msg.cwd);
      if IsClear(args) then (saved[log := ""][LastIdFile(stateDir) := IntText(msg.id)], Cleared(msg))
      else
        var text := FormatMessage(msg, stampOf(msg.timestamp));
        (saved[log := (if log in saved then saved[log] else "") + text], Shown(msg, text))
  }

  /** `main`, on the state directory `dir`; the database rows are `rows`. */
  method RunOnce(dir: Files.Directory, stateDir: string, args: seq<string>, rows: seq<Message>,
              stampOf: int -> string)
    returns (outcome: Outcome)
    modifies dir
    ensures (dir.files, outcome) == Run(old(dir.files), stateDir, args, rows, stampOf)
    ensures dir.stamps.Keys <= old(dir.stamps.Keys)
  {
    var lastId := LastId(dir.files, stateDir);
    var msg := if lastId.None? then None else NextMessage(rows, lastId.value);
    if msg.None? {
      return CaughtUp;
    }
    var m := msg.value;
    var currentProject := CurrentProject(dir.files, stateDir);
    var chatLogPath := ChatLogPath(stateDir, m.cwd);
    if currentProject != Some(m.cwd) {
      dir.WriteFile(CurrentProjectFile(stateDir), m.cwd);
    }
    if IsClear(args) {
      dir.WriteFile(chatLogPath, "");
      dir.WriteFile(LastIdFile(stateDir), IntText(m.id));
      return Cleared(m);
    }
    var formatted := FormatMessage(m, stampOf(m.timestamp));
    dir.AppendFile(chatLogPath, formatted);
    outcome := Shown(m, formatted);
  }

  // ---------------------------------------------------------------------------
  // Properties of the walk
  // ---------------------------------------------------------------------------

  /** Without a last-id file the walk starts at the first spoken message. */
  lemma FirstRunStartsAtBeginning(files: map<string, string>, stateDir: string, rows: seq<Message>)
    requires LastIdFile(stateDir) !in files
    requires forall m :: m in rows ==> m.id > 0
    ensures var next := RunMessage(files, stateDir, rows);
      next.None? <==> forall m :: m in rows ==> !Spoken(m)
  {
  }

  /** A run works on a message after the saved id, or finds none. */
  lemma RunPassesLastId(files: map<string, string>, stateDir: string, args: seq<string>, rows: seq<Message>,
                        stampOf: int -> string, last: int)
    requires LastId(files, stateDir) == Some(last)
    ensures var outcome := Run(files, stateDir, args, rows, stampOf).1;
      outcome.CaughtUp? || outcome.msg.id > last
  {
  }

  /** `--clear` moves the walk on: it saves the message's id, so the next run
      works on a later message, or finds none. */
  lemma ClearMovesOn(files: map<string, string>, stateDir: string, args: seq<string>, args2: seq<string>,
                     rows: seq<Message>, stampOf: int -> string)
    requires IsClear(args)
    requires Run(files, stateDir, args, rows, stampOf).1.Cleared?
    ensures var after := Run(files, stateDir, args, rows, stampOf).0;
      var id := Run(files, stateDir, args, rows, stampOf).1.msg.id;
      var next := Run(after, stateDir, args2, rows, stampOf).1;
      LastId(after, stateDir) == Some(id) && (next.CaughtUp? || next.msg.id > id)
  {
    var after := Run(files, stateDir, args, rows, stampOf).0;
    var id := Run(files, stateDir, args, rows, stampOf).1.msg.id;
    assert after[LastIdFile(stateDir)] == IntText(id);
    IntTextTrimmed(id);
    ParseIntRoundTrip(id);
    RunPassesLastId(after, stateDir, args2, rows, stampOf, id);
  }

  /** A run without `--clear` does not move the walk: the next run shows the
      same message again and appends it to the log a second time. */
  lemma ShowingRepeats(files: map<string, string>, stateDir: string, args: seq<string>,
                       rows: seq<Message>, stampOf: int -> string)
    requires !IsClear(args)
    ensures var (after, outcome) := Run(files, stateDir, args, rows, stampOf);
      outcome.Shown? ==>
        var log := ChatLogPath(stateDir, outcome.msg.cwd);
        var (again, second) := Run(after, stateDir, args, rows, stampOf);
        second == outcome && log in after && again[log] == after[log] + outcome.text
  {
    var (after, outcome) := Run(files, stateDir, args, rows, stampOf);
    if outcome.Shown? {
      var m := outcome.msg;
      StateFilesDistinct(stateDir, m.cwd);
      assert LastId(after, stateDir) == LastId(files, stateDir);
      var saved := WithProject(files, stateDir, m.cwd);
      assert after[CurrentProjectFile(stateDir)] == saved[CurrentProjectFile(stateDir)];
      if CurrentProject(files, stateDir) != Some(m.cwd) {
        assert saved[CurrentProjectFile(stateDir)] == m.cwd;
      }
    }
  }

  /** After a run that found a message, the current-project file names the
      message's project. */
  lemma ProjectFollowsMessage(files: map<string, string>, stateDir: string, args: seq<string>,
                              rows: seq<Message>, stampOf: int -> string)
    ensures var (after, outcome) := Run(files, stateDir, args, rows, stampOf);
      !outcome.CaughtUp? ==>
        CurrentProjectFile(stateDir) in after &&
        (after[CurrentProjectFile(stateDir)] == outcome.msg.cwd || CurrentProject(files, stateDir) == Some(outcome.msg.cwd))
  {
    var (after, outcome) := Run(files, stateDir, args, rows, stampOf);
    if !outcome.CaughtUp? {
      StateFilesDistinct(stateDir, outcome.msg.cwd);
    }
  }
}
