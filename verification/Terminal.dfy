// What the keyboard console shows, as a value: the text screen, the cursor and the
// line being edited. Console.dfy shows that kernel/keyboard.cpp takes these steps.
module Terminal {
  import opened Memory
  import opened Decimal

  const ROW: nat := 160
  const SCREEN: nat := 4000
  const LAST_ROW: nat := 3840
  const FIRST_PROMPT: nat := 1600
  const MAX_LINE: nat := 63

  const SPACE: Byte := 32
  const NEWLINE: Byte := 10
  const BACKSPACE: Byte := 8
  const GRAY: Byte := 0x07
  const YELLOW: Byte := 0x0E
  const PURPLE: Byte := 0x0D
  const CYAN: Byte := 0x0B

  // The US layout; every scancode past the table maps to 0.
  const TOP_ROW: seq<Byte> := [0, 27, 49, 50, 51, 52, 53, 54, 55, 56, 57, 48, 45, 61, 8]
  const UPPER_ROW: seq<Byte> := [9, 113, 119, 101, 114, 116, 121, 117, 105, 111, 112, 91, 93, 10]
  const HOME_ROW: seq<Byte> := [0, 97, 115, 100, 102, 103, 104, 106, 107, 108, 59, 39, 96, 0]
  const LOWER_ROW: seq<Byte> := [92, 122, 120, 99, 118, 98, 110, 109, 44, 46, 47, 0, 42, 0, 32]
  const KBD_US: seq<Byte> := TOP_ROW + UPPER_ROW + HOME_ROW + LOWER_ROW

  function KeyChar(scancode: Byte): Byte {
    if scancode < |KBD_US| then KBD_US[scancode] else 0
  }

  // The four rows of the keyboard, and the keys beside them.
  lemma Layout()
    ensures KBD_US[2..14] == Codes("1234567890-=") && KBD_US[16..28] == Codes("qwertyuiop[]")
    ensures KBD_US[30..42] == Codes("asdfghjkl;'`") && KBD_US[43..54] == Codes("\\zxcvbnm,./")
    ensures KeyChar(1) == 27 && KeyChar(14) == 8 && KeyChar(15) == 9 && KeyChar(28) == 10
    ensures KeyChar(55) == 42 && KeyChar(57) == 32
    ensures forall k :: k in {0, 29, 42, 54, 56} || 58 <= k < 256 ==> KeyChar(k) == 0
  {
    hide Codes;
    UpperRows();
    LowerRows();
    assert KBD_US[2..14] == TOP_ROW[2..14] && KBD_US[16..28] == UPPER_ROW[1..13];
    assert KBD_US[30..42] == HOME_ROW[1..13] && KBD_US[43..54] == LOWER_ROW[..11];
  }

  lemma UpperRows()
    ensures TOP_ROW[2..14] == Codes("1234567890-=") && UPPER_ROW[1..13] == Codes("qwertyuiop[]")
  {
  }

  lemma LowerRows()
    ensures HOME_ROW[1..13] == Codes("asdfghjkl;'`") && LOWER_ROW[..11] == Codes("\\zxcvbnm,./")
  {
  }

  // The kernel's texts are ASCII; any other character would read as '?'.
  function Code(c: char): Byte {
    if 0 < c as int < 0x80 then c as int else 63
  }

  function Codes(s: string): (b: seq<Byte>)
    ensures |b| == |s| && forall i :: 0 <= i < |b| ==> b[i] != 0
  {
    seq(|s|, i requires 0 <= i < |s| => Code(s[i]))
  }

  const HELP_TEXT: string := ">> [FontaineOS Help: 'help', 'clear', 'uptime', 'meminfo', 'disktest']"
  const SECRET_TEXT: string := "SUCCESS: STREAMED DATA STRAIGHT FROM HARD DRIVE SECTOR PLATES!"
  const UNKNOWN_TEXT: string := ">> Command not found! Type 'help' for options."

  // ---- The screen ----

  datatype Term = Term(video: seq<Byte>, cursor: nat, line: seq<Byte>)

  function BlankAt(i: int): Byte {
    if i % 2 == 0 then SPACE else GRAY
  }

  // The text at byte offset at, in one colour.
  function Printed(v: seq<Byte>, at: nat, text: seq<Byte>, color: Byte): (w: seq<Byte>)
    ensures |w| == |v|
  {
    seq(|v|, i requires 0 <= i < |v| =>
      if at <= i < at + 2 * |text| then (if (i - at) % 2 == 0 then text[(i - at) / 2] else color) else v[i])
  }

  function Cleared(v: seq<Byte>, from: nat): (w: seq<Byte>)
    ensures |w| == |v|
  {
    seq(|v|, i requires 0 <= i < |v| => if i >= from then BlankAt(i) else v[i])
  }

  // Every row moves up by one and the last row is blank.
  function Scrolled(v: seq<Byte>): (w: seq<Byte>)
    requires |v| == SCREEN
    ensures |w| == SCREEN
  {
    seq(SCREEN, i requires 0 <= i < SCREEN => if i < LAST_ROW then v[i + ROW] else BlankAt(i))
  }

  function NextRow(cursor: nat): nat {
    (cursor / ROW + 1) * ROW
  }

  function Advance(t: Term): Term
    requires |t.video| == SCREEN
  {
    if NextRow(t.cursor) >= SCREEN then t.(video := Scrolled(t.video), cursor := LAST_ROW)
    else t.(cursor := NextRow(t.cursor))
  }

  function PrintLine(t: Term, text: seq<Byte>, color: Byte): Term
    requires |t.video| == SCREEN
  {
    Advance(t.(video := Printed(t.video, t.cursor, text, color), cursor := t.cursor + 2 * |text|))
  }

  // ---- The commands ----

  // The counters the replies report.
  datatype Env = Env(ticks: Word, totalPages: Word, usedPages: Word, threads: Word)

  // Up to 128 MB of memory: the page counters the meminfo line is laid out for.
  predicate Sane(e: Env) {
    e.usedPages <= e.totalPages <= 32768
  }

  // The numerals of a meminfo reply read back as pages used, pages in all, free KB
  // and threads.
  lemma MeminfoNumbers(e: Env) returns (used: seq<Byte>, total: seq<Byte>, free: seq<Byte>, threads: seq<Byte>)
    requires Sane(e)
    ensures MeminfoText(e) == Codes(">> Memory: ") + used + Codes("/") + total + Codes(" pages used | ") + free
                              + Codes(" KB free | Threads: ") + threads
    ensures IsCanonical(used) && IsCanonical(total) && IsCanonical(free) && IsCanonical(threads)
    ensures Parse(used) == e.usedPages && Parse(total) == e.totalPages
    ensures Parse(free) == 4 * (e.totalPages - e.usedPages) && Parse(threads) == e.threads
  {
    hide Codes;
    hide Digits;
    hide IsCanonical;
    hide Parse;
    var kb := (e.totalPages - e.usedPages) * 4;
    NoWrap(kb);
    RoundTrip(e.usedPages);
    RoundTrip(e.totalPages);
    RoundTrip(kb);
    RoundTrip(e.threads);
    used, total, free, threads := Digits(e.usedPages), Digits(e.totalPages), Digits(kb), Digits(e.threads);
    assert [] + Codes(">> Memory: ") == Codes(">> Memory: ");
  }

  // Those of an uptime reply read back as seconds at 100 ticks each, and as ticks.
  lemma UptimeNumbers(e: Env) returns (seconds: seq<Byte>, ticks: seq<Byte>)
    ensures UptimeText(e) == Codes(">> Uptime: ") + seconds + Codes(" seconds (") + ticks
                             + Codes(" hardware ticks @ 100Hz)")
    ensures IsCanonical(seconds) && IsCanonical(ticks)
    ensures 100 * Parse(seconds) <= Parse(ticks) < 100 * Parse(seconds) + 100 && Parse(ticks) == e.ticks
  {
    hide Codes;
    hide Digits;
    hide IsCanonical;
    hide Parse;
    RoundTrip(e.ticks / 100);
    RoundTrip(e.ticks);
    seconds, ticks := Digits(e.ticks / 100), Digits(e.ticks);
    assert [] + Codes(">> Uptime: ") == Codes(">> Uptime: ");
  }

  // What stands before, then a label and a number.
  function Field(before: seq<Byte>, caption: string, v: nat): seq<Byte> {
    before + Codes(caption) + Digits(v)
  }

  function UptimeText(e: Env): seq<Byte> {
    Field(Field([], ">> Uptime: ", e.ticks / 100), " seconds (", e.ticks) + Codes(" hardware ticks @ 100Hz)")
  }

  function MeminfoText(e: Env): seq<Byte> {
    var pages := Field(Field([], ">> Memory: ", e.usedPages), "/", e.totalPages);
    var free := Field(pages, " pages used | ", Wrap((e.totalPages - e.usedPages) * 4));
    Field(free, " KB free | Threads: ", e.threads)
  }

  function Reply(line: seq<Byte>, e: Env): seq<Byte> {
    if line == Codes("help") then Codes(HELP_TEXT)
    else if line == Codes("uptime") then UptimeText(e)
    else if line == Codes("meminfo") then MeminfoText(e)
    else if line == Codes("disktest") then Codes(SECRET_TEXT)
    else Codes(UNKNOWN_TEXT)
  }

  function ReplyColor(line: seq<Byte>): Byte {
    if line == Codes("uptime") || line == Codes("meminfo") then CYAN else PURPLE
  }

  // Each command has its own answer and colour; everything else is refused.
  lemma Answers(line: seq<Byte>, e: Env)
    ensures line == Codes("help") ==>
              Reply(line, e) == Codes(">> [FontaineOS Help: 'help', 'clear', 'uptime', 'meminfo', 'disktest']")
    ensures line == Codes("uptime") ==> Reply(line, e) == UptimeText(e)
    ensures line == Codes("meminfo") ==> Reply(line, e) == MeminfoText(e)
    ensures line == Codes("disktest") ==>
              Reply(line, e) == Codes("SUCCESS: STREAMED DATA STRAIGHT FROM HARD DRIVE SECTOR PLATES!")
    ensures line !in {Codes("help"), Codes("uptime"), Codes("meminfo"), Codes("disktest")} ==>
              Reply(line, e) == Codes(">> Command not found! Type 'help' for options.")
    ensures ReplyColor(line) == if line in {Codes("uptime"), Codes("meminfo")} then 0x0B else 0x0D
  {
    assert |Codes("help")| == 4 && |Codes("uptime")| == 6 && |Codes("meminfo")| == 7 && |Codes("disktest")| == 8;
    hide Codes;
  }

  function Run(t: Term, line: seq<Byte>, e: Env): Term
    requires |t.video| == SCREEN
  {
    if line == Codes("clear") then t.(video := Cleared(t.video, FIRST_PROMPT), cursor := FIRST_PROMPT)
    else if line == [] then t
    else PrintLine(t, Reply(line, e), ReplyColor(line))
  }

  // ---- One key ----

  function Enter(t: Term, e: Env): Term
    requires |t.video| == SCREEN
  {
    Run(Advance(t), t.line, e).(line := [])
  }

  function Erase(t: Term): Term
    requires |t.line| > 0 && 2 <= t.cursor <= |t.video|
  {
    t.(video := t.video[t.cursor - 2 := SPACE], cursor := t.cursor - 2, line := t.line[..|t.line| - 1])
  }

  function Type(t: Term, c: Byte): Term
    requires t.cursor + 1 < |t.video|
  {
    t.(video := t.video[t.cursor := c][t.cursor + 1 := YELLOW], cursor := t.cursor + 2, line := t.line + [c])
  }

  // A backspace on an empty line is typed like any other character.
  function Press(t: Term, scancode: Byte, e: Env): Term
    requires Coupled(t)
  {
    var c := KeyChar(scancode);
    if scancode >= 0x80 then t
    else if c == NEWLINE then Enter(t, e)
    else if c == BACKSPACE && |t.line| > 0 then Erase(t)
    else if c != 0 && |t.line| < MAX_LINE then Type(t, c)
    else t
  }

  // ---- The coupling of line, cursor and screen ----

  function RowStart(t: Term): int {
    t.cursor - 2 * |t.line|
  }

  ghost predicate Shows(v: seq<Byte>, at: nat, text: seq<Byte>, color: Byte) {
    at + 2 * |text| <= |v| && forall k :: 0 <= k < |text| ==> v[at + 2 * k] == text[k] && v[at + 2 * k + 1] == color
  }

  predicate IsRow(at: int) {
    at % ROW == 0 && FIRST_PROMPT <= at <= LAST_ROW
  }

  // The prompt row holds exactly the edited line, and the cursor stands right
  // after it, inside the row.
  ghost predicate Coupled(t: Term) {
    && |t.video| == SCREEN && |t.line| <= MAX_LINE
    && IsRow(RowStart(t))
    && (forall k :: 0 <= k < |t.line| ==> t.line[k] != 0)
    && Shows(t.video, RowStart(t), t.line, YELLOW)
  }

  // Where a coupled prompt stands on the 25 rows of 80 cells.
  lemma PromptPlace(t: Term)
    requires Coupled(t)
    ensures |t.video| == 4000 && |t.line| <= 63 && RowStart(t) == t.cursor - 2 * |t.line|
    ensures RowStart(t) % 160 == 0 && 1600 <= RowStart(t) <= 3840
    ensures forall k :: 0 <= k < |t.line| ==> t.video[RowStart(t) + 2 * k] == t.line[k]
  {
  }

  lemma AdvanceRow(t: Term)
    requires |t.video| == SCREEN && IsRow(RowStart(t)) && |t.line| <= 79
    ensures var u := Advance(t); |u.video| == SCREEN && IsRow(u.cursor)
    ensures Advance(t).cursor == if RowStart(t) == LAST_ROW then LAST_ROW else RowStart(t) + ROW
  {
    assert t.cursor / ROW == RowStart(t) / ROW;
  }

  lemma NumeralWidths(e: Env)
    requires Sane(e)
    ensures |Digits(e.usedPages)| <= 5 && |Digits(e.totalPages)| <= 5
    ensures |Digits(Wrap((e.totalPages - e.usedPages) * 4))| <= 6
    ensures |Digits(e.threads)| <= 10 && |Digits(e.ticks)| <= 10 && |Digits(e.ticks / 100)| <= 10
  {
    assert PowerOfTen(5) == 100000 && PowerOfTen(6) == 10 * PowerOfTen(5);
    DigitCount(e.usedPages, 5);
    DigitCount(e.totalPages, 5);
    DigitCount(Wrap((e.totalPages - e.usedPages) * 4), 6);
    WordDigits(e.threads);
    WordDigits(e.ticks);
    WordDigits(e.ticks / 100);
  }

  // Every reply fits on its row with room to spare.
  lemma ReplyFits(line: seq<Byte>, e: Env)
    requires Sane(e)
    ensures |Reply(line, e)| <= 79
  {
    NumeralWidths(e);
  }

  // Scrolling carries a shown text up by one row.
  lemma ShowsScrolled(v: seq<Byte>, at: nat, text: seq<Byte>, color: Byte)
    requires |v| == SCREEN && ROW <= at && at + 2 * |text| <= SCREEN && Shows(v, at, text, color)
    ensures Shows(Scrolled(v), at - ROW, text, color)
  {
  }

  lemma ShowsPrinted(v: seq<Byte>, at: nat, text: seq<Byte>, color: Byte)
    requires at + 2 * |text| <= |v|
    ensures Shows(Printed(v, at, text, color), at, text, color)
  {
  }

  lemma ShowsBeside(v: seq<Byte>, w: seq<Byte>, at: nat, text: seq<Byte>, color: Byte)
    requires Shows(v, at, text, color) && |w| == |v| && forall i :: at <= i < at + 2 * |text| ==> w[i] == v[i]
    ensures Shows(w, at, text, color)
  {
  }

  lemma TypeKeepsCoupled(t: Term, c: Byte)
    requires Coupled(t) && |t.line| < MAX_LINE && c != 0
    ensures Coupled(Type(t, c))
  {
  }

  lemma EraseKeepsCoupled(t: Term)
    requires Coupled(t) && |t.line| > 0
    ensures Coupled(Erase(t))
  {
  }

  // One key press keeps line, cursor and screen coupled.
  lemma PressKeepsCoupled(t: Term, scancode: Byte, e: Env)
    requires Coupled(t) && Sane(e)
    ensures Coupled(Press(t, scancode, e))
  {
    hide Shows;
    hide Enter;
    hide Type;
    hide Erase;
    var c := KeyChar(scancode);
    EnterShowsReply(t, e);
    if |t.line| > 0 { EraseKeepsCoupled(t); }
    if |t.line| < MAX_LINE && c != 0 { TypeKeepsCoupled(t, c); }
  }

  // Moving to the next row, scrolling if need be, leaves a shown row directly above.
  lemma AdvanceShows(t: Term, row: nat, text: seq<Byte>, color: Byte)
    requires |t.video| == SCREEN && IsRow(RowStart(t)) && |t.line| <= 79
    requires ROW <= row <= RowStart(t) && row + 2 * |text| <= SCREEN && Shows(t.video, row, text, color)
    ensures var u := Advance(t);
            row + u.cursor - RowStart(t) - ROW >= 0 && Shows(u.video, row + u.cursor - RowStart(t) - ROW, text, color)
  {
    hide Shows;
    hide Scrolled;
    AdvanceRow(t);
    if RowStart(t) == LAST_ROW { ShowsScrolled(t.video, row, text, color); }
  }

  lemma PrintLineIs(t: Term, text: seq<Byte>, color: Byte)
    requires |t.video| == SCREEN
    ensures PrintLine(t, text, color) ==
              Advance(Term(Printed(t.video, t.cursor, text, color), t.cursor + 2 * |text|, text)).(line := t.line)
  {
  }

  // The printed screen p, before the cursor moves on: the text at the cursor, and
  // the row above untouched.
  lemma PrintedShows(t: Term, text: seq<Byte>, color: Byte, above: seq<Byte>, color': Byte, p: Term)
    requires |t.video| == SCREEN && IsRow(t.cursor) && |text| <= 79 && |above| <= 79
    requires Shows(t.video, t.cursor - ROW, above, color')
    requires p == Term(Printed(t.video, t.cursor, text, color), t.cursor + 2 * |text|, text)
    ensures |p.video| == SCREEN && RowStart(p) == t.cursor && 2 * ROW <= t.cursor && |p.line| <= 79
    ensures t.cursor + 2 * |text| <= SCREEN && t.cursor - ROW + 2 * |above| <= SCREEN
    ensures Shows(p.video, t.cursor, text, color) && Shows(p.video, t.cursor - ROW, above, color')
  {
    ShowsPrinted(t.video, t.cursor, text, color);
    ShowsBeside(t.video, p.video, t.cursor - ROW, above, color');
  }

  lemma PrintLineShows(t: Term, text: seq<Byte>, color: Byte, above: seq<Byte>, color': Byte)
    requires |t.video| == SCREEN && IsRow(t.cursor) && |text| <= 79 && |above| <= 79
    requires Shows(t.video, t.cursor - ROW, above, color')
    ensures var u := PrintLine(t, text, color);
            && |u.video| == SCREEN && IsRow(u.cursor)
            && Shows(u.video, u.cursor - ROW, text, color)
            && Shows(u.video, u.cursor - 2 * ROW, above, color')
  {
    hide *;
    var p := Term(Printed(t.video, t.cursor, text, color), t.cursor + 2 * |text|, text);
    PrintLineIs(t, text, color);
    PrintedShows(t, text, color, above, color', p);
    AdvanceRow(p);
    AdvanceShows(p, t.cursor, text, color);
    AdvanceShows(p, t.cursor - ROW, above, color');
  }

  // After Enter the new prompt row is empty; directly above it stands the reply,
  // and above that the line just typed, also when the screen has scrolled.
  lemma EnterShowsReply(t: Term, e: Env)
    requires Coupled(t) && Sane(e)
    ensures Coupled(Enter(t, e)) && Enter(t, e).line == []
    ensures var u := Enter(t, e);
            t.line != [] && t.line != Codes("clear") ==>
              && Shows(u.video, u.cursor - ROW, Reply(t.line, e), ReplyColor(t.line))
              && Shows(u.video, u.cursor - 2 * ROW, t.line, YELLOW)
  {
    hide Shows;
    hide Scrolled;
    hide Reply;
    hide ReplyColor;
    hide PrintLine;
    AdvanceRow(t);
    AdvanceShows(t, RowStart(t), t.line, YELLOW);
    var a := Advance(t);
    ReplyFits(t.line, e);
    PrintLineShows(a, Reply(t.line, e), ReplyColor(t.line), t.line, YELLOW);
    var u := Enter(t, e);
    EmptyShows(u.video, u.cursor, YELLOW);
  }

  lemma EmptyShows(v: seq<Byte>, at: nat, color: Byte)
    requires at <= |v|
    ensures Shows(v, at, [], color)
  {
  }

  // Typing and erasing touch nothing outside the prompt row.
  lemma EditsStayInRow(t: Term, scancode: Byte, e: Env, i: nat)
    requires Coupled(t) && KeyChar(scancode) != NEWLINE && i < SCREEN
    requires !(RowStart(t) <= i < RowStart(t) + ROW)
    ensures Press(t, scancode, e).video[i] == t.video[i]
  {
  }

  datatype Key = Key(scancode: Byte, env: Env)

  // Any run of key presses and releases.
  ghost function Pressed(t: Term, keys: seq<Key>): (u: Term)
    requires Coupled(t) && forall i :: 0 <= i < |keys| ==> Sane(keys[i].env)
    ensures Coupled(u)
  {
    if keys == [] then t
    else
      var before := Pressed(t, keys[..|keys| - 1]);
      var k := keys[|keys| - 1];
      PressKeepsCoupled(before, k.scancode, k.env);
      Press(before, k.scancode, k.env)
  }

  // Backspace shortens the line, except that on an empty one it is typed and shown.
  lemma BackspaceAlone(t: Term, scancode: Byte, e: Env)
    requires Coupled(t) && scancode < 0x80 && KeyChar(scancode) == BACKSPACE
    ensures |Press(t, scancode, e).line| <= |t.line| <==> t.line != []
    ensures t.line == [] ==> Press(t, scancode, e).line == [BACKSPACE]
                             && Shows(Press(t, scancode, e).video, t.cursor, [BACKSPACE], YELLOW)
  {
  }

  // ---- What is typed ----

  ghost predicate AllSane(keys: seq<Key>) {
    forall i :: 0 <= i < |keys| ==> Sane(keys[i].env)
  }

  // A press of a key with a character of its own.
  predicate TypesChar(scancode: Byte) {
    scancode < 0x80 && KeyChar(scancode) !in {0, 8, 10}
  }

  function Chars(keys: seq<Key>): (text: seq<Byte>)
    ensures |text| == |keys|
  {
    seq(|keys|, i requires 0 <= i < |keys| => KeyChar(keys[i].scancode))
  }

  // As long as the line has room, it grows by exactly the characters of the keys
  // pressed, and the cursor by two bytes for each.
  lemma {:induction false} TypedText(t: Term, keys: seq<Key>)
    requires Coupled(t) && AllSane(keys) && |t.line| + |keys| <= 63
    requires forall i :: 0 <= i < |keys| ==> TypesChar(keys[i].scancode)
    ensures Pressed(t, keys).line == t.line + Chars(keys)
    ensures Pressed(t, keys).cursor == t.cursor + 2 * |keys|
  {
    hide Coupled;
    if keys != [] {
      var front, k := keys[..|keys| - 1], keys[|keys| - 1];
      TypedText(t, front);
      assert Chars(keys) == Chars(front) + [KeyChar(k.scancode)];
    }
  }

  // Enter after such a run answers exactly the text that was typed.
  lemma TypedIsAnswered(t: Term, keys: seq<Key>, enter: Key)
    requires Coupled(t) && t.line == [] && AllSane(keys) && Sane(enter.env) && 1 <= |keys| <= 63
    requires forall i :: 0 <= i < |keys| ==> TypesChar(keys[i].scancode)
    requires enter.scancode < 0x80 && KeyChar(enter.scancode) == 10 && Chars(keys) != Codes("clear")
    ensures var u, text := Press(Pressed(t, keys), enter.scancode, enter.env), Chars(keys);
            && Coupled(u) && u.line == []
            && Shows(u.video, u.cursor - 160, Reply(text, enter.env), ReplyColor(text))
            && Shows(u.video, u.cursor - 320, text, 0x0E)
  {
    hide Coupled;
    hide Shows;
    hide Press;
    hide Pressed;
    hide Reply;
    hide ReplyColor;
    hide Codes;
    hide KeyChar;
    hide Enter;
    TypedText(t, keys);
    var before := Pressed(t, keys);
    assert before.line == Chars(keys);
    EnterShowsReply(before, enter.env);
    PressIsEnter(before, enter.scancode, enter.env);
  }

  // The keys h, e, l and p.
  function HelpKeys(e: Env): seq<Key> {
    [Key(35, e), Key(18, e), Key(38, e), Key(25, e)]
  }

  lemma HelpKeysType(e: Env)
    ensures Chars(HelpKeys(e)) == Codes("help")
    ensures forall i :: 0 <= i < 4 ==> TypesChar(HelpKeys(e)[i].scancode)
  {
    assert KeyChar(35) == 104 && KeyChar(18) == 101 && KeyChar(38) == 108 && KeyChar(25) == 112;
    hide KeyChar;
  }

  // Those keys and Enter bring up the help text.
  lemma HelpIsHelped(t: Term, e: Env)
    requires Coupled(t) && t.line == [] && Sane(e)
    ensures var u := Press(Pressed(t, HelpKeys(e)), 28, e);
            && Coupled(u)
            && Shows(u.video, u.cursor - 160,
                     Codes(">> [FontaineOS Help: 'help', 'clear', 'uptime', 'meminfo', 'disktest']"), 0x0D)
  {
    hide Coupled;
    hide Shows;
    hide Press;
    hide Pressed;
    hide Reply;
    hide ReplyColor;
    hide Chars;
    HelpKeysType(e);
    Answers(Codes("help"), e);
    Layout();
    hide KeyChar;
    assert |Codes("clear")| == 5 && |Codes("uptime")| == 6 && |Codes("meminfo")| == 7;
    TypedIsAnswered(t, HelpKeys(e), Key(28, e));
  }

  // A full line takes no more characters.
  lemma FullLineStands(t: Term, scancode: Byte, e: Env)
    requires Coupled(t) && |t.line| == 63 && (TypesChar(scancode) || KeyChar(scancode) == 0 || scancode >= 0x80)
    ensures Press(t, scancode, e) == t
  {
  }

  // Backspace takes back the last character: line and cursor are as before it, and
  // its cell on the screen is blank.
  lemma BackspaceUndoes(t: Term, scancode: Byte, back: Byte, e: Env)
    requires Coupled(t) && Sane(e) && |t.line| < 63 && TypesChar(scancode) && back < 0x80 && KeyChar(back) == 8
    ensures var typed := Press(t, scancode, e);
            Coupled(typed) && var u := Press(typed, back, e);
            && u.line == t.line && u.cursor == t.cursor && u.video[t.cursor] == 32
            && forall i :: 0 <= i < SCREEN && i != t.cursor && i != t.cursor + 1 ==> u.video[i] == t.video[i]
  {
    PressKeepsCoupled(t, scancode, e);
    assert (t.line + [KeyChar(scancode)])[..|t.line|] == t.line;
  }

  // ---- The transcript ----

  datatype LogRow = LogRow(text: seq<Byte>, color: Byte)

  // The row at byte offset at shows the text and then nothing.
  ghost predicate RowIs(v: seq<Byte>, at: int, row: LogRow) {
    && 0 <= at && at + ROW <= |v| && |row.text| <= 80
    && (forall k :: 0 <= k < 80 ==> v[at + 2 * k] == if k < |row.text| then row.text[k] else SPACE)
    && forall k :: 0 <= k < |row.text| ==> v[at + 2 * k + 1] == row.color
  }

  ghost predicate BlankFrom(v: seq<Byte>, at: nat) {
    forall i :: at <= i < |v| && i % 2 == 0 ==> v[i] == SPACE
  }

  // The rows above the one at offset at are the newest rows of the log, as many as
  // there is room for; and at has moved down by one row each until the last row.
  ghost predicate LogAbove(v: seq<Byte>, at: nat, log: seq<LogRow>) {
    && |v| == SCREEN && at == FIRST_PROMPT + ROW * (if |log| < 14 then |log| else 14)
    && forall j :: 1 <= j <= |log| && ROW * j <= at ==> RowIs(v, at - ROW * j, log[|log| - j])
  }

  ghost predicate Logged(t: Term, log: seq<LogRow>) {
    && Coupled(t) && LogAbove(t.video, RowStart(t), log)
    && RowIs(t.video, RowStart(t), LogRow(t.line, YELLOW)) && BlankFrom(t.video, RowStart(t) + ROW)
  }

  // What a line that is entered adds to the log.
  function LogEntered(log: seq<LogRow>, line: seq<Byte>, e: Env): seq<LogRow> {
    if line == Codes("clear") then []
    else if line == [] then log + [LogRow([], YELLOW)]
    else log + [LogRow(line, YELLOW), LogRow(Reply(line, e), ReplyColor(line))]
  }

  // Moving to the next row adds the row left behind to the log.
  lemma AdvanceLogs(t: Term, log: seq<LogRow>, row: LogRow)
    requires |t.video| == SCREEN && IsRow(RowStart(t)) && |t.line| <= 79
    requires LogAbove(t.video, RowStart(t), log) && RowIs(t.video, RowStart(t), row)
    requires BlankFrom(t.video, RowStart(t) + ROW)
    ensures var u := Advance(t);
            IsRow(u.cursor) && LogAbove(u.video, u.cursor, log + [row]) && BlankFrom(u.video, u.cursor)
  {
    AdvanceRow(t);
    var u, all := Advance(t), log + [row];
    forall j | 1 <= j <= |all| && ROW * j <= u.cursor
      ensures RowIs(u.video, u.cursor - ROW * j, all[|all| - j])
    {
      var from := RowStart(t) - ROW * (j - 1);
      assert j > 1 ==> RowIs(t.video, from, log[|log| - (j - 1)]);
      if RowStart(t) == LAST_ROW { RowScrolled(t.video, from, all[|all| - j]); }
    }
  }

  lemma RowScrolled(v: seq<Byte>, at: int, row: LogRow)
    requires |v| == SCREEN && ROW <= at && RowIs(v, at, row)
    ensures RowIs(Scrolled(v), at - ROW, row)
  {
  }

  // The log stands while the bytes above the prompt row do.
  lemma LogBeside(v: seq<Byte>, w: seq<Byte>, at: nat, log: seq<LogRow>)
    requires LogAbove(v, at, log) && |w| == |v| && forall i :: 0 <= i < at && i < |v| ==> w[i] == v[i]
    ensures LogAbove(w, at, log)
  {
    forall j | 1 <= j <= |log| && ROW * j <= at
      ensures RowIs(w, at - ROW * j, log[|log| - j])
    {
      RowBeside(v, w, at - ROW * j, log[|log| - j]);
    }
  }

  lemma RowBeside(v: seq<Byte>, w: seq<Byte>, at: int, row: LogRow)
    requires RowIs(v, at, row) && |w| == |v| && forall i :: at <= i < at + ROW ==> w[i] == v[i]
    ensures RowIs(w, at, row)
  {
  }

  lemma RowPrinted(v: seq<Byte>, at: nat, text: seq<Byte>, color: Byte)
    requires |text| <= 79 && at % 2 == 0 && at + ROW <= |v| && BlankFrom(v, at)
    ensures RowIs(Printed(v, at, text, color), at, LogRow(text, color))
    ensures BlankFrom(Printed(v, at, text, color), at + ROW)
  {
    var w := Printed(v, at, text, color);
    forall k | 0 <= k < 80
      ensures w[at + 2 * k] == if k < |text| then text[k] else SPACE
      ensures k < |text| ==> w[at + 2 * k + 1] == color
    {
      assert (at + 2 * k) % 2 == 0 && v[at + 2 * k] == SPACE;
    }
    forall i | at + ROW <= i < |w| && i % 2 == 0
      ensures w[i] == SPACE
    {
      assert v[i] == SPACE;
    }
  }

  lemma PrintLogs(t: Term, log: seq<LogRow>, text: seq<Byte>, color: Byte)
    requires |t.video| == SCREEN && IsRow(t.cursor) && |text| <= 79
    requires LogAbove(t.video, t.cursor, log) && BlankFrom(t.video, t.cursor)
    ensures var u := PrintLine(t, text, color);
            IsRow(u.cursor) && LogAbove(u.video, u.cursor, log + [LogRow(text, color)]) && BlankFrom(u.video, u.cursor)
  {
    hide LogAbove;
    hide BlankFrom;
    hide RowIs;
    hide Advance;
    hide PrintLine;
    var p := Term(Printed(t.video, t.cursor, text, color), t.cursor + 2 * |text|, text);
    PrintLineIs(t, text, color);
    LogBeside(t.video, p.video, t.cursor, log);
    RowPrinted(t.video, t.cursor, text, color);
    AdvanceLogs(p, log, LogRow(text, color));
  }

  lemma EnterLogs(t: Term, log: seq<LogRow>, e: Env)
    requires Logged(t, log) && Sane(e)
    ensures Logged(Enter(t, e), LogEntered(log, t.line, e))
  {
    hide LogAbove;
    hide BlankFrom;
    hide RowIs;
    hide Shows;
    hide Advance;
    hide PrintLine;
    hide Cleared;
    hide Reply;
    hide ReplyColor;
    hide Codes;
    EnterShowsReply(t, e);
    var typed := LogRow(t.line, YELLOW);
    AdvanceLogs(t, log, typed);
    var a, u := Advance(t), Enter(t, e);
    if t.line == Codes("clear") {
      ClearedLogs(a.video);
    } else if t.line != [] {
      ReplyFits(t.line, e);
      PrintLogs(a, log + [typed], Reply(t.line, e), ReplyColor(t.line));
      var reply := LogRow(Reply(t.line, e), ReplyColor(t.line));
      assert log + [typed] + [reply] == log + [typed, reply];
    }
    BlankRow(u.video, u.cursor);
  }

  lemma ClearedLogs(v: seq<Byte>)
    requires |v| == SCREEN
    ensures LogAbove(Cleared(v, FIRST_PROMPT), FIRST_PROMPT, []) && BlankFrom(Cleared(v, FIRST_PROMPT), FIRST_PROMPT)
  {
  }

  lemma BlankRow(v: seq<Byte>, at: nat)
    requires BlankFrom(v, at) && at % 2 == 0 && at + ROW <= |v|
    ensures RowIs(v, at, LogRow([], YELLOW)) && BlankFrom(v, at + ROW)
  {
  }

  // Typing and erasing change the prompt row to the new line and nothing else.
  lemma EditLogs(t: Term, log: seq<LogRow>, scancode: Byte, e: Env)
    requires Logged(t, log) && Sane(e) && (scancode >= 0x80 || KeyChar(scancode) != NEWLINE)
    ensures Logged(Press(t, scancode, e), log)
  {
    hide LogAbove;
    hide BlankFrom;
    hide RowIs;
    hide Shows;
    PressKeepsCoupled(t, scancode, e);
    var u := Press(t, scancode, e);
    LogBeside(t.video, u.video, RowStart(t), log);
    if scancode < 0x80 && u != t { EditedRow(t, u); }
  }

  lemma RowCell(v: seq<Byte>, at: int, row: LogRow, k: nat)
    requires RowIs(v, at, row) && k < 80
    ensures v[at + 2 * k] == (if k < |row.text| then row.text[k] else SPACE)
    ensures k < |row.text| ==> v[at + 2 * k + 1] == row.color
  {
  }

  lemma EditedRow(t: Term, u: Term)
    requires Coupled(t) && RowIs(t.video, RowStart(t), LogRow(t.line, YELLOW)) && BlankFrom(t.video, RowStart(t) + ROW)
    requires (|t.line| > 0 && u == Erase(t)) || (|t.line| < MAX_LINE && exists c :: u == Type(t, c))
    ensures RowIs(u.video, RowStart(t), LogRow(u.line, YELLOW)) && BlankFrom(u.video, RowStart(t) + ROW)
  {
    var at := RowStart(t);
    forall k | 0 <= k < 80
      ensures u.video[at + 2 * k] == if k < |u.line| then u.line[k] else SPACE
      ensures k < |u.line| ==> u.video[at + 2 * k + 1] == YELLOW
    {
      RowCell(t.video, at, LogRow(t.line, YELLOW), k);
    }
  }

  // What has been entered and answered since the last clear.
  ghost function Transcript(t: Term, keys: seq<Key>): seq<LogRow>
    requires Coupled(t) && forall i :: 0 <= i < |keys| ==> Sane(keys[i].env)
  {
    if keys == [] then []
    else
      var front, k := keys[..|keys| - 1], keys[|keys| - 1];
      if k.scancode < 0x80 && KeyChar(k.scancode) == NEWLINE then
        LogEntered(Transcript(t, front), Pressed(t, front).line, k.env)
      else Transcript(t, front)
  }

  // Over every run from an empty prompt on a cleared screen, the rows above the
  // prompt are the newest rows of the transcript, however often the screen scrolled.
  lemma {:induction false} ScreenIsTranscript(t: Term, keys: seq<Key>)
    requires Coupled(t) && Logged(t, []) && forall i :: 0 <= i < |keys| ==> Sane(keys[i].env)
    ensures Logged(Pressed(t, keys), Transcript(t, keys))
  {
    hide Logged;
    hide Press;
    if keys != [] {
      var front, k := keys[..|keys| - 1], keys[|keys| - 1];
      ScreenIsTranscript(t, front);
      var before, log := Pressed(t, front), Transcript(t, front);
      if k.scancode < 0x80 && KeyChar(k.scancode) == NEWLINE {
        EnterLogs(before, log, k.env);
        PressIsEnter(before, k.scancode, k.env);
      } else {
        EditLogs(before, log, k.scancode, k.env);
      }
    }
  }

  lemma PressIsEnter(t: Term, scancode: Byte, e: Env)
    requires Coupled(t) && scancode < 0x80 && KeyChar(scancode) == NEWLINE
    ensures Press(t, scancode, e) == Enter(t, e)
  {
  }

  // Whatever the screen showed, clear leaves an empty prompt on a cleared screen.
  lemma ClearStartsOver(t: Term, e: Env)
    requires Coupled(t) && Sane(e) && t.line == Codes("clear")
    ensures Logged(Enter(t, e), []) && Enter(t, e).cursor == 1600
    ensures forall i :: 1600 <= i < 4000 ==> Enter(t, e).video[i] == if i % 2 == 0 then 32 else 0x07
  {
    EnterShowsReply(t, e);
    var u := Enter(t, e);
    BlankRow(u.video, u.cursor);
  }

  // A scroll moves every byte up by one row of 160 and blanks the last row in gray.
  lemma ScrollMoves(v: seq<Byte>, i: nat)
    requires |v| == 4000 && i < 4000
    ensures Scrolled(v)[i] == if i < 3840 then v[i + 160] else if i % 2 == 0 then 32 else 0x07
  {
  }

  // ---- The key matrix ----

  // One scancode: a press marks its key, a release unmarks it.
  function Held(m: seq<Byte>, scancode: Byte): (n: seq<Byte>)
    requires |m| == 256
    ensures |n| == 256
  {
    if scancode >= 0x80 then m[scancode - 0x80 := 0] else m[scancode := 1]
  }

  function HeldAfter(codes: seq<Byte>): (m: seq<Byte>)
    ensures |m| == 256
  {
    if codes == [] then seq(256, _ => 0) else Held(HeldAfter(codes[..|codes| - 1]), codes[|codes| - 1])
  }

  // The last scancode that concerns key k.
  function LastOf(codes: seq<Byte>, k: nat): int {
    if codes == [] then -1
    else if codes[|codes| - 1] % 0x80 == k then codes[|codes| - 1]
    else LastOf(codes[..|codes| - 1], k)
  }

  // A key counts as held exactly if its last scancode is a press; the upper half of
  // the matrix is never used.
  lemma {:induction false} HeldIsDown(codes: seq<Byte>, k: nat)
    requires k < 256
    ensures HeldAfter(codes)[k] == if LastOf(codes, k) == k then 1 else 0
    ensures k >= 0x80 ==> HeldAfter(codes)[k] == 0
  {
    if codes != [] { HeldIsDown(codes[..|codes| - 1], k); }
  }
}
