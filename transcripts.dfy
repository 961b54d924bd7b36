/** gen-transcripts: replays every message of the `claudia` profile into
    daily Markdown transcripts, one file per day, starting a part file once a
    day's file is full and writing a project header whenever the project
    changes. The speech queue is read in pages of 100 after the last id
    handled. */
module Transcripts {
  import opened Text
  import Files

  /** A row of the speech queue. */
  datatype Message = Message(id: int, timestamp: int, profile: string, role: string, originalText: string,
                             cwd: string)

  /** The size past which a day's file is split: 100 KiB. */
  const Limit: nat := 100 * 1024

  // ---------------------------------------------------------------------------
  // Text written
  // ---------------------------------------------------------------------------

  /** `getAssistantMessage` and `getUserMessage`: a level-three heading naming
      the speaker, then the text and a newline. */
  function Rendered(msg: Message): (r: string)
    ensures msg.role == "assistant" ==> StartsWith(r, "\n### Assistant\n\n")
    ensures msg.role != "assistant" ==> StartsWith(r, "\n### User\n")
    ensures EndsWith(r, msg.originalText + "\n")
  {
    var head := if msg.role == "assistant" then "\n### Assistant\n\n" else "\n### User\n";
    var r := head + msg.originalText + "\n";
    assert r[|r| - |msg.originalText + "\n"|..] == msg.originalText + "\n";
    r
  }

  /** `newFile`'s first line, for a file whose name without `.md` is `base`. */
  function Header(base: string): string { "# Transcript for " + base + "\n" }

  /** `newProject`'s text: the project directory with the home directory's
      first occurrence shortened to `~`. */
  function ProjectHeader(cwd: string, home: string): string {
    "\n## Project: " + ReplaceFirst(cwd, home, "~") + "\n---\n"
  }

  // ---------------------------------------------------------------------------
  // Part names
  // ---------------------------------------------------------------------------

  /** The longest run of digits at the end of `s`. */
  function TrailingDigits(s: string): (d: string)
    ensures AllDigits(d) && EndsWith(s, d)
    ensures |d| < |s| ==> !IsDigit(s[|s| - |d| - 1])
  {
    if s == [] || !IsDigit(s[|s| - 1]) then []
    else
      var init := s[..|s| - 1];
      var d := TrailingDigits(init);
      SuffixSnoc(s, |d|);
      d + [s[|s| - 1]]
  }

  lemma SuffixSnoc(s: string, k: nat)
    requires k < |s|
    ensures s[|s| - k - 1..] == s[..|s| - 1][|s| - 1 - k..] + [s[|s| - 1]]
  {
  }

  /** `/-part\d+$/` matches: the name ends with `-part` and at least one
      digit. */
  predicate HasPartSuffix(base: string) {
    var d := TrailingDigits(base);
    d != [] && EndsWith(base[..|base| - |d|], "-part")
  }

  /** `splitFile`'s new name without `.md`: a name ending in `-partN` becomes
      the same name ending in `-part(N+1)`, any other gets `-part2`. */
  function SplitName(base: string): string {
    if HasPartSuffix(base) then
      var d := TrailingDigits(base);
      base[..|base| - |d| - 5] + "-part" + Decimal(DigitsValue(d) + 1)
    else base + "-part2"
  }

  lemma {:induction false} TrailingDigitsOf(prefix: string, d: string)
    requires AllDigits(d)
    requires prefix == [] || !IsDigit(prefix[|prefix| - 1])
    ensures TrailingDigits(prefix + d) == d
  {
    if d != [] {
      var s := prefix + d;
      var init := d[..|d| - 1];
      assert s[..|s| - 1] == prefix + init;
      TrailingDigitsOf(prefix, init);
    } else {
      assert prefix + d == prefix;
    }
  }

  /** A name ending in `-part` and digits has those digits as its part
      number and the rest before `-part` as its stem. */
  lemma PartNamed(base: string, d: string)
    requires AllDigits(d) && d != []
    ensures var s := base + "-part" + d;
      TrailingDigits(s) == d && HasPartSuffix(s) && s[..|s| - |d| - 5] == base
  {
    var prefix := base + "-part";
    assert prefix[|prefix| - 1] == 't';
    TrailingDigitsOf(prefix, d);
    var s := prefix + d;
    assert s[..|s| - |d|] == prefix;
    assert s[..|s| - |d| - 5] == base;
  }

  /** Part `n` is followed by part `n + 1`. */
  lemma SplitNameNext(base: string, n: nat)
    ensures SplitName(base + "-part" + Decimal(n)) == base + "-part" + Decimal(n + 1)
  {
    PartNamed(base, Decimal(n));
    DecimalRoundTrip(n);
  }

  /** A name without `-part` in it, such as a date, gets part 2; splitting
      again gives part 3. */
  lemma SplitNamePlain(base: string)
    requires !Contains(base, "-part")
    ensures SplitName(base) == base + "-part2"
    ensures SplitName(SplitName(base)) == base + "-part3"
  {
    if HasPartSuffix(base) {
      var d := TrailingDigits(base);
      assert OccursAt(base, "-part", |base| - |d| - 5);
    }
    assert Decimal(2) == "2" && Decimal(3) == "3";
    assert base + "-part2" == base + "-part" + Decimal(2);
    assert base + "-part3" == base + "-part" + Decimal(3);
    SplitNameNext(base, 2);
  }

  // ---------------------------------------------------------------------------
  // One message
  // ---------------------------------------------------------------------------

  /** The transcript directory and the project of the last header written. */
  datatype Cursor = Cursor(files: map<string, string>, lastProject: string)

  /** `fs.appendFileSync`. */
  function Append(files: map<string, string>, name: string, text: string): map<string, string> {
    files[name := (if name in files then files[name] else "") + text]
  }

  /** The day's file `<date>.md` opened: created with its header when
      missing, which also forgets the last project. */
  function Opened(c: Cursor, date: string): Cursor {
    if date + ".md" in c.files then c else Cursor(c.files[date + ".md" := Header(date)], "")
  }

  /** The day's file plus the message would pass the limit: the file's size
      on disk (its UTF-8 bytes) plus the message's `length` (its UTF-16 code
      units). */
  predicate Overflows(c: Cursor, msg: Message, date: string) {
    var size := if date + ".md" in c.files then Utf8Size(c.files[date + ".md"]) else 0;
    size + Utf16Length(Rendered(msg)) > Limit
  }

  /** The file a message is written to: the day's file, or its part file once
      the day's file is full. */
  function Target(c: Cursor, msg: Message, date: string): string {
    if Overflows(c, msg, date) then SplitName(date) + ".md" else date + ".md"
  }

  /** `splitFile`: the part file gets a header (`overwrite` says whether an
      existing part file is replaced by it) and a project header. */
  function SplitInto(overwrite: bool, files: map<string, string>, date: string, cwd: string, home: string)
    : map<string, string>
  {
    var part := SplitName(date) + ".md";
    var created := if overwrite || part !in files then files[part := Header(SplitName(date))] else files;
    Append(created, part, ProjectHeader(cwd, home))
  }

  /** The project header when the project differs from the last one, then
      the message, appended to `target`. */
  function Written(c: Cursor, target: string, msg: Message, home: string): Cursor {
    var files := if msg.cwd != c.lastProject then Append(c.files, target, ProjectHeader(msg.cwd, home)) else c.files;
    Cursor(Append(files, target, Rendered(msg)), msg.cwd)
  }

  /** Handling one message dated `date`. */
  function StepWith(overwrite: bool, c: Cursor, msg: Message, home: string, date: string): Cursor {
    var o := Opened(c, date);
    var files := if Overflows(c, msg, date) then SplitInto(overwrite, o.files, date, msg.cwd, home) else o.files;
    Written(Cursor(files, o.lastProject), Target(c, msg, date), msg, home)
  }

  /** The loop body as written: `splitFile` always rewrites the part file. */
  function StepAsWritten(c: Cursor, msg: Message, home: string, date: string): Cursor {
    StepWith(true, c, msg, home, date)
  }

  /** The loop body with the part file created only when it is missing, so
      later messages are added to it. */
  function Step(c: Cursor, msg: Message, home: string, date: string): Cursor {
    StepWith(false, c, msg, home, date)
  }

  /** Every file of `a` is still in `b` and has only grown at its end. */
  predicate Grows(a: map<string, string>, b: map<string, string>) {
    forall p :: p in a ==> p in b && StartsWith(b[p], a[p])
  }

  lemma GrowsTransitive(a: map<string, string>, b: map<string, string>, c: map<string, string>)
    requires Grows(a, b) && Grows(b, c)
    ensures Grows(a, c)
  {
    forall p | p in a ensures p in c && StartsWith(c[p], a[p]) {
      assert c[p][..|b[p]|][..|a[p]|] == c[p][..|a[p]|];
    }
  }

  lemma AppendGrows(files: map<string, string>, name: string, text: string)
    ensures Grows(files, Append(files, name, text))
  {
    var after := Append(files, name, text);
    if name in files {
      assert after[name][..|files[name]|] == files[name];
    }
  }

  lemma SplitIntoGrows(files: map<string, string>, date: string, cwd: string, home: string)
    ensures Grows(files, SplitInto(false, files, date, cwd, home))
  {
    var part := SplitName(date) + ".md";
    var created := if part !in files then files[part := Header(SplitName(date))] else files;
    assert Grows(files, created);
    AppendGrows(created, part, ProjectHeader(cwd, home));
    GrowsTransitive(files, created, SplitInto(false, files, date, cwd, home));
  }

  lemma WrittenGrows(c: Cursor, target: string, msg: Message, home: string)
    ensures Grows(c.files, Written(c, target, msg, home).files)
  {
    var files := if msg.cwd != c.lastProject then Append(c.files, target, ProjectHeader(msg.cwd, home)) else c.files;
    AppendGrows(c.files, target, ProjectHeader(msg.cwd, home));
    AppendGrows(files, target, Rendered(msg));
    GrowsTransitive(c.files, files, Written(c, target, msg, home).files);
  }

  /** The step keeps everything already written: no file loses its text. */
  lemma StepKeepsWritten(c: Cursor, msg: Message, home: string, date: string)
    ensures Grows(c.files, Step(c, msg, home, date).files)
  {
    var o := Opened(c, date);
    assert Grows(c.files, o.files);
    var files := if Overflows(c, msg, date) then SplitInto(false, o.files, date, msg.cwd, home) else o.files;
    SplitIntoGrows(o.files, date, msg.cwd, home);
    GrowsTransitive(c.files, o.files, files);
    WrittenGrows(Cursor(files, o.lastProject), Target(c, msg, date), msg, home);
    GrowsTransitive(c.files, files, Step(c, msg, home, date).files);
  }

  /** Every file of `a` except `x` is still in `b` and has only grown at its
      end. */
  predicate GrowsExcept(a: map<string, string>, b: map<string, string>, x: string) {
    forall p :: p in a && p != x ==> p in b && StartsWith(b[p], a[p])
  }

  lemma GrowsExceptTransitive(a: map<string, string>, b: map<string, string>, c: map<string, string>, x: string)
    requires GrowsExcept(a, b, x) && GrowsExcept(b, c, x)
    ensures GrowsExcept(a, c, x)
  {
    forall p | p in a && p != x ensures p in c && StartsWith(c[p], a[p]) {
      assert c[p][..|b[p]|][..|a[p]|] == c[p][..|a[p]|];
    }
  }

  /** A split, whether it keeps or rewrites the part file, touches no other
      file. */
  lemma SplitIntoKeepsOthers(overwrite: bool, files: map<string, string>, date: string, cwd: string, home: string)
    ensures GrowsExcept(files, SplitInto(overwrite, files, date, cwd, home), SplitName(date) + ".md")
  {
  }

  /** The loop body as written keeps everything already written, except
      what the split's `newFile` rewrites: the day's part file. */
  lemma StepAsWrittenKeepsOthers(c: Cursor, msg: Message, home: string, date: string)
    ensures GrowsExcept(c.files, StepAsWritten(c, msg, home, date).files, SplitName(date) + ".md")
  {
    var part := SplitName(date) + ".md";
    var o := Opened(c, date);
    var files := if Overflows(c, msg, date) then SplitInto(true, o.files, date, msg.cwd, home) else o.files;
    assert GrowsExcept(c.files, o.files, part);
    SplitIntoKeepsOthers(true, o.files, date, msg.cwd, home);
    GrowsExceptTransitive(c.files, o.files, files, part);
    WrittenGrows(Cursor(files, o.lastProject), Target(c, msg, date), msg, home);
    GrowsExceptTransitive(c.files, files, StepAsWritten(c, msg, home, date).files, part);
  }

  /** A part name holds `-part`. */
  lemma PartNameHoldsPart(date: string)
    ensures Contains(SplitName(date) + ".md", "-part")
  {
    var name := SplitName(date) + ".md";
    if HasPartSuffix(date) {
      var d := TrailingDigits(date);
      var k := |date| - |d| - 5;
      var stem := date[..k];
      assert name == stem + "-part" + (Decimal(DigitsValue(d) + 1) + ".md");
      assert OccursAt(name, "-part", k);
    } else {
      assert name == date + "-part" + ("2" + ".md");
      assert OccursAt(name, "-part", |date|);
    }
  }

  /** A part name is never the day's file it splits. */
  lemma SplitNameDiffers(date: string)
    ensures SplitName(date) != date
  {
    if HasPartSuffix(date) {
      var d := TrailingDigits(date);
      var k := |date| - |d| - 5;
      var next := Decimal(DigitsValue(d) + 1);
      var split := date[..k] + "-part" + next;
      if split == date {
        assert date[k + 5..] == next by { assert split[k + 5..] == next; }
        assert date[k + 5..] == d;
        DecimalRoundTrip(DigitsValue(d) + 1);
        assert false;
      }
    } else {
      assert |SplitName(date)| > |date|;
    }
  }

  lemma SameSuffixCancels(a: string, b: string, x: string)
    requires a + x == b + x
    ensures a == b
  {
    assert a == (a + x)[..|a|];
    assert b == (b + x)[..|b|];
  }

  /** The message ends up at the end of its target file, and the project of
      the last header is the message's. */
  lemma StepWritesMessage(c: Cursor, msg: Message, home: string, date: string)
    ensures var after := StepAsWritten(c, msg, home, date);
      Target(c, msg, date) in after.files && EndsWith(after.files[Target(c, msg, date)], Rendered(msg)) &&
      after.lastProject == msg.cwd
  {
    var after := StepAsWritten(c, msg, home, date);
    var s := after.files[Target(c, msg, date)];
    assert s[|s| - |Rendered(msg)|..] == Rendered(msg);
  }

  /** A day's file that did not exist starts with its header. */
  lemma NewDayStartsWithHeader(c: Cursor, msg: Message, home: string, date: string)
    requires date + ".md" !in c.files
    ensures var after := StepAsWritten(c, msg, home, date).files;
      date + ".md" in after && StartsWith(after[date + ".md"], Header(date))
  {
    var o := Opened(c, date);
    var part := SplitName(date) + ".md";
    var files := if Overflows(c, msg, date) then SplitInto(true, o.files, date, msg.cwd, home) else o.files;
    SplitNameDiffers(date);
    if date + ".md" == part {
      SameSuffixCancels(date, SplitName(date), ".md");
    }
    SplitIntoKeepsOthers(true, o.files, date, msg.cwd, home);
    WrittenGrows(Cursor(files, o.lastProject), Target(c, msg, date), msg, home);
    assert StartsWith(files[date + ".md"], Header(date));
    assert files[date + ".md"] == Header(date);
  }

  /** A message of the last project that overflows the day's file goes to
      the part file, after its header (kept or rewritten, as `overwrite`
      says) and a project header; the day's file is left as it is. */
  lemma OverflowStep(overwrite: bool, c: Cursor, msg: Message, home: string, date: string)
    requires date + ".md" in c.files && Overflows(c, msg, date)
    requires msg.cwd == c.lastProject
    requires SplitName(date) + ".md" != date + ".md"
    ensures var part := SplitName(date) + ".md";
      var after := StepWith(overwrite, c, msg, home, date);
      var before := if overwrite || part !in c.files then Header(SplitName(date)) else c.files[part];
      part in after.files && after.files[part] == before + ProjectHeader(msg.cwd, home) + Rendered(msg) &&
      date + ".md" in after.files && after.files[date + ".md"] == c.files[date + ".md"] &&
      after.lastProject == msg.cwd
  {
  }

  /** Two messages of one project arriving once the day's file is full: as
      written, the second rewrites the part file and the first is gone; with
      the part file kept, both are there. */
  lemma {:induction false} OverflowWipesPart(c: Cursor, m1: Message, m2: Message, home: string, date: string)
    requires !Contains(date, "-part")
    requires date + ".md" in c.files && |c.files[date + ".md"]| >= Limit
    requires date + "-part2.md" !in c.files
    requires m1.cwd == m2.cwd == c.lastProject
    ensures var part := date + "-part2.md";
      var header := Header(date + "-part2") + ProjectHeader(m1.cwd, home);
      var once := StepAsWritten(c, m1, home, date).files;
      var twice := StepAsWritten(StepAsWritten(c, m1, home, date), m2, home, date).files;
      var kept := Step(Step(c, m1, home, date), m2, home, date).files;
      part in once && once[part] == header + Rendered(m1) &&
      part in twice && twice[part] == header + Rendered(m2) &&
      part in kept && kept[part] == header + Rendered(m1) + ProjectHeader(m1.cwd, home) + Rendered(m2)
  {
    SplitNamePlain(date);
    var daily := date + ".md";
    var part := date + "-part2.md";
    assert SplitName(date) + ".md" == part;
    assert daily != part by { assert |daily| != |part|; }
    assert |Rendered(m1)| > 0 && |Rendered(m2)| > 0;
    OverflowStep(true, c, m1, home, date);
    OverflowStep(false, c, m1, home, date);
    var w1 := StepAsWritten(c, m1, home, date);
    var k1 := Step(c, m1, home, date);
    OverflowStep(true, w1, m2, home, date);
    OverflowStep(false, k1, m2, home, date);
  }


  // ---------------------------------------------------------------------------
  // Paging through the queue
  // ---------------------------------------------------------------------------

  /** A row the query wants: a `claudia` message after the last id. */
  predicate Wanted(m: Message, last: int) { m.id > last && m.profile == "claudia" }

  /** The wanted rows, in the order the query returns them (the rows are
      listed in timestamp order). */
  function Candidates(rows: seq<Message>, last: int): (r: seq<Message>)
    ensures |r| <= |rows|
    ensures forall m :: m in r ==> m in rows && Wanted(m, last)
  {
    if rows == [] then []
    else
      var rest := Candidates(rows[1..], last);
      if Wanted(rows[0], last) then [rows[0]] + rest else rest
  }

  const PageSize := 100

  /** One query: at most 100 wanted rows. */
  function Query(rows: seq<Message>, last: int): (page: seq<Message>)
    ensures |page| <= PageSize && |page| <= |Candidates(rows, last)|
    ensures page == Candidates(rows, last)[..|page|]
    ensures |page| == PageSize || page == Candidates(rows, last)
  {
    var c := Candidates(rows, last);
    if |c| <= PageSize then c else c[..PageSize]
  }

  /** A later last id, past a wanted row, leaves fewer rows wanted. */
  lemma {:induction false} CandidatesShrink(rows: seq<Message>, a: int, b: int, m: Message)
    requires a <= b && m in rows && Wanted(m, a) && m.id <= b
    ensures |Candidates(rows, b)| < |Candidates(rows, a)|
  {
    if rows[0] == m {
      CandidatesFewer(rows[1..], a, b);
    } else {
      CandidatesShrink(rows[1..], a, b, m);
    }
  }

  lemma {:induction false} CandidatesFewer(rows: seq<Message>, a: int, b: int)
    requires a <= b
    ensures |Candidates(rows, b)| <= |Candidates(rows, a)|
  {
    if rows != [] {
      CandidatesFewer(rows[1..], a, b);
    }
  }

  /** The messages in the order the loop handles them: page after page, each
      query starting after the id of the last message of the page before. */
  function Pages(rows: seq<Message>, last: int): seq<Message>
    decreases |Candidates(rows, last)|
  {
    var page := Query(rows, last);
    if page == [] then []
    else
      var next := page[|page| - 1].id;
      assert page[|page| - 1] in Candidates(rows, last);
      CandidatesShrink(rows, last, next, page[|page| - 1]);
      page + Pages(rows, next)
  }

  /** Ids that increase along the rows. */
  predicate IdsIncrease(rows: seq<Message>) {
    forall i, j :: 0 <= i < j < |rows| ==> rows[i].id < rows[j].id
  }

  lemma {:induction false} CandidatesIncrease(rows: seq<Message>, last: int)
    requires IdsIncrease(rows)
    ensures IdsIncrease(Candidates(rows, last))
    ensures forall m :: m in Candidates(rows, last) ==> m in rows
  {
    if rows != [] {
      CandidatesIncrease(rows[1..], last);
      var rest := Candidates(rows[1..], last);
      forall m | m in rest ensures rows[0].id < m.id {
        var k :| 0 <= k < |rows[1..]| && rows[1..][k] == m;
        assert rows[k + 1] == m;
      }
    }
  }

  /** A page that is not empty is followed by the pages after its last id. */
  lemma PagesUnfold(rows: seq<Message>, last: int)
    requires Query(rows, last) != []
    ensures var page := Query(rows, last);
      Pages(rows, last) == page + Pages(rows, page[|page| - 1].id)
  {
  }

  /** With ids in timestamp order, the rows after the id of the `k`th wanted
      row are the wanted rows after it. */
  lemma {:induction false} CandidatesAfter(rows: seq<Message>, last: int, k: nat)
    requires IdsIncrease(rows)
    requires k < |Candidates(rows, last)|
    ensures Candidates(rows, Candidates(rows, last)[k].id) == Candidates(rows, last)[k + 1..]
  {
    var c := Candidates(rows, last);
    CandidatesIncrease(rows, last);
    var rest := Candidates(rows[1..], last);
    CandidatesIncrease(rows[1..], last);
    if Wanted(rows[0], last) {
      if k == 0 {
        NoneWantedAfter(rows[1..], rows[0].id, last);
        assert c[1..] == rest;
      } else {
        CandidatesAfter(rows[1..], last, k - 1);
        assert c[k] == rest[k - 1] && c[k + 1..] == rest[k..];
        assert rest[k - 1] in rest;
        assert rows[0].id < c[k].id;
      }
    } else {
      CandidatesAfter(rows[1..], last, k);
      assert c[k] in rows[1..];
      var j :| 0 <= j < |rows[1..]| && rows[1..][j] == c[k];
      assert rows[j + 1] == c[k];
    }
  }

  /** When every row is after `x`, the rows after `x` are the rows wanted
      after `last` (for `last <= x`). */
  lemma {:induction false} NoneWantedAfter(rows: seq<Message>, x: int, last: int)
    requires last <= x
    requires forall i :: 0 <= i < |rows| ==> rows[i].id > x
    ensures Candidates(rows, x) == Candidates(rows, last)
  {
    if rows != [] {
      NoneWantedAfter(rows[1..], x, last);
    }
  }

  /** With ids in timestamp order the loop handles every `claudia` message
      after the start exactly once, in order. */
  lemma {:induction false} PagesCoverAll(rows: seq<Message>, last: int)
    requires IdsIncrease(rows)
    ensures Pages(rows, last) == Candidates(rows, last)
    decreases |Candidates(rows, last)|
  {
    var c := Candidates(rows, last);
    var page := Query(rows, last);
    if page != [] {
      var k := |page| - 1;
      var next := page[k].id;
      assert page[k] == c[k];
      CandidatesAfter(rows, last, k);
      assert page[k] in c;
      CandidatesShrink(rows, last, next, page[k]);
      PagesCoverAll(rows, next);
      assert c == page + c[k + 1..];
    }
  }

  /** With ids out of timestamp order a message can be handled twice. */
  lemma RepeatsWhenIdsDisagree()
    ensures var early := Message(2, 1, "claudia", "assistant", "a", "/p");
      var late := Message(1, 2, "claudia", "assistant", "b", "/p");
      Pages([early, late], 0) == [early, late, early]
  {
    var early := Message(2, 1, "claudia", "assistant", "a", "/p");
    var late := Message(1, 2, "claudia", "assistant", "b", "/p");
    assert Candidates([early, late], 0) == [early, late];
    assert Candidates([early, late], 1) == [early];
    assert Candidates([early, late], 2) == [];
    assert Pages([early, late], 2) == [];
    assert Pages([early, late], 1) == [early];
  }

  // ---------------------------------------------------------------------------
  // The program
  // ---------------------------------------------------------------------------

  /** What the program writes: the transcripts after the messages `ms`,
      starting from an empty directory, each message handled by the loop
      body as written. `dateOf` is the message time's ISO date. */
  function Replay(ms: seq<Message>, home: string, dateOf: int -> string): Cursor
    decreases |ms|
  {
    if ms == [] then Cursor(map[], "")
    else
      var n := |ms| - 1;
      StepAsWritten(Replay(ms[..n], home, dateOf), ms[n], home, dateOf(ms[n].timestamp))
  }

  /** The same replay with the part file kept. */
  function ReplayKept(ms: seq<Message>, home: string, dateOf: int -> string): Cursor
    decreases |ms|
  {
    if ms == [] then Cursor(map[], "")
    else
      var n := |ms| - 1;
      Step(ReplayKept(ms[..n], home, dateOf), ms[n], home, dateOf(ms[n].timestamp))
  }

  lemma ReplayExtend(ms: seq<Message>, m: Message, home: string, dateOf: int -> string)
    ensures Replay(ms + [m], home, dateOf) == StepAsWritten(Replay(ms, home, dateOf), m, home, dateOf(m.timestamp))
  {
    assert (ms + [m])[..|ms|] == ms;
  }

  /** Every file of `a` whose name holds no `-part` (every day's file) is
      still in `b` and has only grown at its end. */
  predicate DaysGrow(a: map<string, string>, b: map<string, string>) {
    forall p :: p in a && !Contains(p, "-part") ==> p in b && StartsWith(b[p], a[p])
  }

  lemma DaysGrowTransitive(a: map<string, string>, b: map<string, string>, c: map<string, string>)
    requires DaysGrow(a, b) && DaysGrow(b, c)
    ensures DaysGrow(a, c)
  {
    forall p | p in a && !Contains(p, "-part") ensures p in c && StartsWith(c[p], a[p]) {
      assert c[p][..|b[p]|][..|a[p]|] == c[p][..|a[p]|];
    }
  }

  lemma ReplayLastKeepsDays(ms: seq<Message>, n: nat, home: string, dateOf: int -> string)
    requires n + 1 == |ms|
    ensures DaysGrow(Replay(ms[..n], home, dateOf).files, Replay(ms, home, dateOf).files)
  {
    var date := dateOf(ms[n].timestamp);
    StepAsWrittenKeepsOthers(Replay(ms[..n], home, dateOf), ms[n], home, date);
    PartNameHoldsPart(date);
  }

  /** As written, later messages only add to the days' files written so far;
      only part files can lose text (see `OverflowWipesPart`). */
  lemma {:induction false} ReplayKeepsDays(ms: seq<Message>, k: nat, home: string, dateOf: int -> string)
    requires k <= |ms|
    ensures DaysGrow(Replay(ms[..k], home, dateOf).files, Replay(ms, home, dateOf).files)
    decreases |ms|
  {
    if k < |ms| {
      var n := |ms| - 1;
      var before := Replay(ms[..k], home, dateOf).files;
      var middle := Replay(ms[..n], home, dateOf).files;
      assert DaysGrow(before, middle) by {
        PrefixOfPrefix(ms, n, k);
        ReplayKeepsDays(ms[..n], k, home, dateOf);
      }
      assert DaysGrow(middle, Replay(ms, home, dateOf).files) by {
        ReplayLastKeepsDays(ms, n, home, dateOf);
      }
      DaysGrowTransitive(before, middle, Replay(ms, home, dateOf).files);
    } else {
      assert ms[..k] == ms;
    }
  }

  lemma ReplayKeptLastGrows(ms: seq<Message>, n: nat, home: string, dateOf: int -> string)
    requires n + 1 == |ms|
    ensures Grows(ReplayKept(ms[..n], home, dateOf).files, ReplayKept(ms, home, dateOf).files)
  {
    StepKeepsWritten(ReplayKept(ms[..n], home, dateOf), ms[n], home, dateOf(ms[n].timestamp));
  }

  /** With the part file kept, everything written stays: the transcripts
      after `ms` extend those after any prefix of `ms`. */
  lemma {:induction false} ReplayKeptKeepsWritten(ms: seq<Message>, k: nat, home: string, dateOf: int -> string)
    requires k <= |ms|
    ensures Grows(ReplayKept(ms[..k], home, dateOf).files, ReplayKept(ms, home, dateOf).files)
    decreases |ms|
  {
    if k < |ms| {
      var n := |ms| - 1;
      var before := ReplayKept(ms[..k], home, dateOf).files;
      var middle := ReplayKept(ms[..n], home, dateOf).files;
      assert Grows(before, middle) by {
        PrefixOfPrefix(ms, n, k);
        ReplayKeptKeepsWritten(ms[..n], k, home, dateOf);
      }
      assert Grows(middle, ReplayKept(ms, home, dateOf).files) by {
        ReplayKeptLastGrows(ms, n, home, dateOf);
      }
      GrowsTransitive(before, middle, ReplayKept(ms, home, dateOf).files);
    } else {
      assert ms[..k] == ms;
    }
  }

  lemma PrefixOfPrefix(ms: seq<Message>, n: nat, k: nat)
    requires k <= n <= |ms|
    ensures ms[..n][..k] == ms[..k]
  {
  }

  /** `newFile`: the file `name` holds just its header. */
  method NewFile(dir: Files.Directory, name: string, base: string)
    requires dir.stamps == map[]
    modifies dir
    ensures dir.files == old(dir.files)[name := Header(base)] && dir.stamps == map[]
  {
    dir.WriteFile(name, Header(base));
  }

  /** `newProject`. */
  method NewProject(dir: Files.Directory, name: string, msg: Message, home: string)
    requires dir.stamps == map[]
    modifies dir
    ensures dir.files == Append(old(dir.files), name, ProjectHeader(msg.cwd, home)) && dir.stamps == map[]
  {
    dir.AppendFile(name, ProjectHeader(msg.cwd, home));
  }

  /** `splitFile` on the day's file `<date>.md`: `newFile` (re)writes the
      part file with its header, then the project header is appended. */
  method SplitFile(dir: Files.Directory, date: string, msg: Message, home: string) returns (name: string)
    requires dir.stamps == map[]
    modifies dir
    ensures name == SplitName(date) + ".md"
    ensures dir.files == Append(old(dir.files)[name := Header(SplitName(date))], name, ProjectHeader(msg.cwd, home))
    ensures dir.stamps == map[]
  {
    var base := SplitName(date);
    name := base + ".md";
    NewFile(dir, name, base);
    NewProject(dir, name, msg, home);
  }

  /** The body of the loop for one message. */
  method HandleMessage(dir: Files.Directory, lastProject: string, msg: Message, home: string, date: string)
    returns (project: string)
    requires dir.stamps == map[]
    modifies dir
    ensures Cursor(dir.files, project) == StepAsWritten(Cursor(old(dir.files), lastProject), msg, home, date)
    ensures dir.stamps == map[]
  {
    var filename := date + ".md";
    var message := Rendered(msg);
    var fileSize := 0;
    project := lastProject;
    if filename !in dir.files {
      NewFile(dir, filename, date);
      project := "";
    } else {
      fileSize := Utf8Size(dir.files[filename]);
    }
    if fileSize + Utf16Length(message) > Limit {
      filename := SplitFile(dir, date, msg, home);
    }
    if msg.cwd != project {
      NewProject(dir, filename, msg, home);
      project := msg.cwd;
    }
    dir.AppendFile(filename, message);
  }

  /** The inner loop of `main`: handles one page in order, remembering the
      id of each message handled. */
  method HandlePage(dir: Files.Directory, lastProject: string, ghost handled: seq<Message>, msgs: seq<Message>,
                    home: string, dateOf: int -> string)
    returns (project: string, lastId: int)
    requires msgs != []
    requires Cursor(dir.files, lastProject) == Replay(handled, home, dateOf) && dir.stamps == map[]
    modifies dir
    ensures Cursor(dir.files, project) == Replay(handled + msgs, home, dateOf) && dir.stamps == map[]
    ensures lastId == msgs[|msgs| - 1].id
  {
    project := lastProject;
    lastId := msgs[0].id;
    assert handled + msgs[..0] == handled;
    for i := 0 to |msgs|
      invariant Cursor(dir.files, project) == Replay(handled + msgs[..i], home, dateOf)
      invariant i > 0 ==> lastId == msgs[i - 1].id
      invariant dir.stamps == map[]
    {
      var m := msgs[i];
      ReplayNext(handled, msgs, i, home, dateOf);
      project := HandleMessage(dir, project, m, home, dateOf(m.timestamp));
      lastId := m.id;
    }
    assert msgs[..|msgs|] == msgs;
  }

  lemma Regroup(a: seq<Message>, b: seq<Message>, c: seq<Message>)
    ensures (a + b) + c == a + (b + c)
  {
  }

  /** Handling `msgs[i]` after `handled + msgs[..i]` replays one more message. */
  lemma ReplayNext(handled: seq<Message>, msgs: seq<Message>, i: nat, home: string, dateOf: int -> string)
    requires i < |msgs|
    ensures Replay(handled + msgs[..i + 1], home, dateOf)
         == StepAsWritten(Replay(handled + msgs[..i], home, dateOf), msgs[i], home, dateOf(msgs[i].timestamp))
  {
    assert msgs[..i + 1] == msgs[..i] + [msgs[i]];
    assert handled + msgs[..i + 1] == (handled + msgs[..i]) + [msgs[i]];
    ReplayExtend(handled + msgs[..i], msgs[i], home, dateOf);
  }

  /** `main`: empties the transcript directory, then handles page after page
      until a query returns nothing. */
  method GenTranscripts(dir: Files.Directory, rows: seq<Message>, home: string, dateOf: int -> string)
    returns (handled: seq<Message>)
    modifies dir
    ensures handled == Pages(rows, 0)
    ensures dir.files == Replay(handled, home, dateOf).files
  {
    var lastId := 0;
    var lastProject := "";
    dir.RemoveAll();
    handled := [];
    while true
      invariant handled + Pages(rows, lastId) == Pages(rows, 0)
      invariant Cursor(dir.files, lastProject) == Replay(handled, home, dateOf)
      invariant dir.stamps == map[]
      decreases |Candidates(rows, lastId)|
    {
      var msgs := Query(rows, lastId);
      if msgs == [] {
        assert handled == Pages(rows, 0) by {
          assert Pages(rows, lastId) == [] && handled + [] == handled;
        }
        return;
      }
      ghost var first := lastId;
      lastProject, lastId := HandlePage(dir, lastProject, handled, msgs, home, dateOf);
      assert |Candidates(rows, lastId)| < |Candidates(rows, first)| by {
        assert msgs[|msgs| - 1] in Candidates(rows, first);
        CandidatesShrink(rows, first, lastId, msgs[|msgs| - 1]);
      }
      assert (handled + msgs) + Pages(rows, lastId) == Pages(rows, 0) by {
        PagesUnfold(rows, first);
        Regroup(handled, msgs, Pages(rows, lastId));
      }
      handled := handled + msgs;
    }
  }
}
