// kernel/keyboard.cpp in place: the interrupt handler edits a line buffer and the
// text screen, and runs the shell commands.
module Console {
  import opened Memory
  import opened CStrings
  import opened Decimal
  import opened Terminal

  const REPLY_SIZE: nat := 160

  function Literal(s: string): (b: seq<Byte>)
    ensures CString(b, Codes(s))
  {
    Codes(s) + [0]
  }

  // mystrcmp
  method StringsEqual(a: seq<Byte>, b: seq<Byte>, ghost textA: seq<Byte>, ghost textB: seq<Byte>) returns (equal: bool)
    requires CString(a, textA) && CString(b, textB)
    ensures equal <==> textA == textB
  {
    var i := 0;
    while a[i] != 0 && b[i] != 0
      invariant 0 <= i <= |textA| && i <= |textB| && textA[..i] == textB[..i]
      decreases |textA| - i
    {
      assert a[i] == textA[i] && b[i] == textB[i];
      if a[i] != b[i] { return false; }
      i := i + 1;
    }
    assert i < |textA| ==> a[i] == textA[i];
    assert i < |textB| ==> b[i] == textB[i];
    equal := a[i] == 0 && b[i] == 0;
  }

  // append_str: bounded at the last byte of the reply buffer, which it terminates.
  method AppendStr(dest: array<Byte>, pos: nat, src: seq<Byte>, ghost text: seq<Byte>) returns (end: nat)
    requires dest.Length == REPLY_SIZE && CString(src, text) && pos <= 159
    modifies dest
    ensures end == if pos + |text| <= 159 then pos + |text| else 159
    ensures dest[..end] == old(dest[..pos]) + text[..end - pos] && dest[end] == 0
  {
    var i := 0;
    end := pos;
    EndOfText(src, text, 0);
    while src[i] != 0 && end < 159
      invariant 0 <= i <= |text| && end == pos + i <= 159 && dest[..end] == old(dest[..pos]) + text[..i]
      invariant src[i] == 0 <==> i == |text|
      decreases |text| - i
    {
      EndOfText(src, text, i);
      ghost var before := dest[..end];
      dest[end] := src[i];
      assert dest[..end + 1] == before + [src[i]];
      assert text[..i + 1] == text[..i] + [text[i]];
      end := end + 1;
      i := i + 1;
      EndOfText(src, text, i);
    }
    ghost var before := dest[..end];
    dest[end] := 0;
    assert dest[..end] == before;
  }

  // A label and a number, which each command renders through its num buffer.
  method AppendField(dest: array<Byte>, pos: nat, caption: string, value: Word, ghost done: seq<Byte>)
      returns (end: nat)
    requires dest.Length == REPLY_SIZE && pos + |caption| + 10 <= 159 && dest[..pos] == done
    modifies dest
    ensures end == pos + |caption| + |Digits(value)| && |Digits(value)| <= 10
    ensures dest[..end] == Field(done, caption, value) && dest[end] == 0
  {
    end := AppendStr(dest, pos, Literal(caption), Codes(caption));
    assert Codes(caption)[..|caption|] == Codes(caption);
    var num := new Byte[11];
    var len := UintToDec(value, num);
    RoundTrip(value);
    assert CString(num[..], Digits(value));
    ghost var mid := end;
    end := AppendStr(dest, end, num[..], Digits(value));
    assert Digits(value)[..end - mid] == Digits(value);
  }

  lemma FieldNoZero(before: seq<Byte>, caption: string, v: nat)
    requires NoZero(before)
    ensures NoZero(Field(before, caption, v)) && |Field(before, caption, v)| == |before| + |caption| + |Digits(v)|
  {
    RoundTrip(v);
  }

  method UptimeReply(e: Env) returns (reply: array<Byte>)
    ensures fresh(reply) && CString(reply[..], UptimeText(e))
  {
    hide Field;
    reply := new Byte[REPLY_SIZE];
    ghost var a := Field([], ">> Uptime: ", e.ticks / 100);
    ghost var b := Field(a, " seconds (", e.ticks);
    FieldNoZero([], ">> Uptime: ", e.ticks / 100);
    FieldNoZero(a, " seconds (", e.ticks);
    var pos := AppendField(reply, 0, ">> Uptime: ", e.ticks / 100, []);
    pos := AppendField(reply, pos, " seconds (", e.ticks, a);
    ghost var tail := Codes(" hardware ticks @ 100Hz)");
    pos := AppendStr(reply, pos, Literal(" hardware ticks @ 100Hz)"), tail);
    assert tail[..|tail|] == tail;
    assert reply[..pos] == b + tail;
  }

  method MeminfoReply(e: Env) returns (reply: array<Byte>)
    ensures fresh(reply) && CString(reply[..], MeminfoText(e))
  {
    hide Field;
    hide Wrap;
    hide NoZero;
    var freeKb := Wrap((e.totalPages - e.usedPages) * 4);
    reply := new Byte[REPLY_SIZE];
    ghost var a := Field([], ">> Memory: ", e.usedPages);
    ghost var b := Field(a, "/", e.totalPages);
    ghost var c := Field(b, " pages used | ", freeKb);
    ghost var d := Field(c, " KB free | Threads: ", e.threads);
    EmptyNoZero();
    FieldNoZero([], ">> Memory: ", e.usedPages);
    FieldNoZero(a, "/", e.totalPages);
    FieldNoZero(b, " pages used | ", freeKb);
    FieldNoZero(c, " KB free | Threads: ", e.threads);
    var pos := AppendField(reply, 0, ">> Memory: ", e.usedPages, []);
    pos := AppendField(reply, pos, "/", e.totalPages, a);
    pos := AppendField(reply, pos, " pages used | ", freeKb, b);
    pos := AppendField(reply, pos, " KB free | Threads: ", e.threads, c);
    IsCString(reply[..], d);
  }

  lemma EmptyNoZero()
    ensures NoZero([])
  {
  }

  lemma IsCString(src: seq<Byte>, text: seq<Byte>)
    requires NoZero(text) && |text| < |src| && src[..|text|] == text && src[|text|] == 0
    ensures CString(src, text)
  {
  }

  class Keyboard {
    const video: array<Byte>
    const cmdBuffer: array<Byte>
    const diskTestPad: array<Byte>
    const keyboardMatrix: array<Byte>
    var commandReadyFlag: Byte
    // End-of-interrupt writes to port 0x20 so far.
    var acknowledged: nat
    var sectorOne: seq<Byte>
    var cmdIndex: nat
    var cursor: nat

    ghost predicate Valid()
      reads this, video, cmdBuffer
    {
      && video.Length == SCREEN && cmdBuffer.Length == 64 && diskTestPad.Length == 512
      && video != cmdBuffer && video != diskTestPad && cmdBuffer != diskTestPad
      && keyboardMatrix.Length == 256
      && keyboardMatrix != video && keyboardMatrix != cmdBuffer && keyboardMatrix != diskTestPad
      && cmdIndex <= MAX_LINE && commandReadyFlag == 0
    }

    ghost function View(): Term
      requires Valid()
      reads this, video, cmdBuffer
    {
      Term(video[..], cursor, cmdBuffer[..cmdIndex])
    }

    // init_keyboard on a given screen.
    constructor (screen: array<Byte>)
      requires screen.Length == SCREEN
      ensures Valid() && View() == Term(screen[..], FIRST_PROMPT, []) && Coupled(View())
      ensures fresh(cmdBuffer) && fresh(diskTestPad) && fresh(keyboardMatrix) && video == screen
      ensures keyboardMatrix[..] == HeldAfter([]) && acknowledged == 0
    {
      video := screen;
      cmdBuffer := new Byte[64](_ => 0);
      diskTestPad := new Byte[512](_ => 0);
      keyboardMatrix := new Byte[256](_ => 0);
      commandReadyFlag, acknowledged := 0, 0;
      sectorOne := [];
      cmdIndex := 0;
      cursor := FIRST_PROMPT;
    }

    // scroll_screen
    method ScrollScreen()
      requires Valid()
      modifies this`cursor, video
      ensures Valid()
      ensures video[..] == if old(cursor) >= SCREEN then Scrolled(old(video[..])) else old(video[..])
      ensures cursor == if old(cursor) >= SCREEN then LAST_ROW else old(cursor)
    {
      if cursor >= SCREEN {
        for i := 0 to LAST_ROW
          invariant forall j :: 0 <= j < i ==> video[j] == old(video[j + ROW])
          invariant forall j :: i <= j < SCREEN ==> video[j] == old(video[j])
        {
          video[i] := video[i + ROW];
        }
        var i := LAST_ROW;
        while i < SCREEN
          invariant LAST_ROW <= i <= SCREEN && i % 2 == 0
          invariant forall j :: 0 <= j < LAST_ROW ==> video[j] == old(video[j + ROW])
          invariant forall j :: LAST_ROW <= j < i ==> video[j] == BlankAt(j)
        {
          video[i] := SPACE;
          video[i + 1] := GRAY;
          i := i + 2;
        }
        cursor := LAST_ROW;
      }
    }

    method NewRow()
      requires Valid()
      modifies this`cursor, video
      ensures Valid() && View() == Advance(old(View()))
    {
      cursor := (cursor / 160 + 1) * 160;
      ScrollScreen();
    }

    // shell_print_line, and the print loop of disktest.
    method ShellPrintLine(src: seq<Byte>, color: Byte, ghost text: seq<Byte>)
      requires Valid() && CString(src, text) && cursor + 2 * |text| <= SCREEN
      modifies this`cursor, video
      ensures Valid() && View() == PrintLine(old(View()), text, color)
    {
      var i := 0;
      EndOfText(src, text, 0);
      while src[i] != 0
        invariant 0 <= i <= |text| && cursor == old(cursor) + 2 * i
        invariant src[i] == 0 <==> i == |text|
        invariant video[..] == Printed(old(video[..]), old(cursor), text[..i], color)
        decreases |text| - i
      {
        EndOfText(src, text, i);
        video[cursor] := src[i];
        video[cursor + 1] := color;
        cursor := cursor + 2;
        i := i + 1;
        PrintedOne(old(video[..]), old(cursor), text, color, i - 1, video[..]);
        EndOfText(src, text, i);
      }
      assert text[..i] == text;
      NewRow();
    }

    method FillPad(src: seq<Byte>, ghost text: seq<Byte>)
      requires Valid() && CString(src, text) && |text| < 512
      modifies diskTestPad
      ensures CString(diskTestPad[..], text)
    {
      for i := 0 to 512
        invariant forall j :: 0 <= j < i ==> diskTestPad[j] == 0
      {
        diskTestPad[i] := 0;
      }
      var len := 0;
      EndOfText(src, text, 0);
      while src[len] != 0
        invariant 0 <= len <= |text| && (src[len] == 0 <==> len == |text|)
        invariant diskTestPad[..len] == text[..len]
        invariant forall j :: len <= j < 512 ==> diskTestPad[j] == 0
        decreases |text| - len
      {
        EndOfText(src, text, len);
        ghost var before := diskTestPad[..len];
        diskTestPad[len] := src[len];
        assert diskTestPad[..len + 1] == before + [text[len]];
        len := len + 1;
        EndOfText(src, text, len);
      }
    }

    // disktest: write the secret to sector 1, wipe the pad, read the sector back.
    method DiskTest()
      requires Valid() && IsRow(cursor)
      modifies this`cursor, this`sectorOne, video, diskTestPad
      ensures Valid() && View() == PrintLine(old(View()), Codes(SECRET_TEXT), PURPLE)
    {
      FillPad(Literal(SECRET_TEXT), Codes(SECRET_TEXT));
      sectorOne := diskTestPad[..];
      ghost var written := sectorOne;
      for i := 0 to 512
        invariant sectorOne == written && cursor == old(cursor) && video[..] == old(video[..])
      {
        diskTestPad[i] := 0;
      }
      for i := 0 to 512
        invariant sectorOne == written && cursor == old(cursor) && video[..] == old(video[..])
        invariant diskTestPad[..i] == sectorOne[..i]
      {
        diskTestPad[i] := sectorOne[i];
      }
      assert diskTestPad[..] == sectorOne;
      ShellPrintLine(diskTestPad[..], PURPLE, Codes(SECRET_TEXT));
    }

    method ClearScreen()
      requires Valid()
      modifies this`cursor, video
      ensures Valid() && View() == Term(Cleared(old(video[..]), FIRST_PROMPT), FIRST_PROMPT, old(View()).line)
    {
      var i := FIRST_PROMPT;
      while i < SCREEN
        invariant FIRST_PROMPT <= i <= SCREEN && i % 2 == 0
        invariant forall j :: FIRST_PROMPT <= j < i ==> video[j] == BlankAt(j)
        invariant forall j :: 0 <= j < FIRST_PROMPT || i <= j < SCREEN ==> video[j] == old(video[j])
      {
        video[i] := SPACE;
        video[i + 1] := GRAY;
        i := i + 2;
      }
      cursor := FIRST_PROMPT;
    }

    method Matches(command: string) returns (equal: bool)
      requires Valid() && CString(cmdBuffer[..], cmdBuffer[..cmdIndex])
      ensures equal <==> cmdBuffer[..cmdIndex] == Codes(command)
    {
      equal := StringsEqual(cmdBuffer[..], Literal(command), cmdBuffer[..cmdIndex], Codes(command));
    }

    // The command dispatch behind Enter.
    method Dispatch(e: Env)
      requires Valid() && IsRow(cursor) && Sane(e) && CString(cmdBuffer[..], cmdBuffer[..cmdIndex])
      modifies this`cursor, this`sectorOne, video, diskTestPad
      ensures Valid() && View() == Run(old(View()), old(View()).line, e)
    {
      hide Codes;
      hide PrintLine;
      hide Cleared;
      ghost var line := cmdBuffer[..cmdIndex];
      ReplyFits(line, e);
      CommandsDiffer();
      var help := Matches("help");
      var uptime := Matches("uptime");
      var meminfo := Matches("meminfo");
      var clear := Matches("clear");
      var disktest := Matches("disktest");
      if help {
        ShellPrintLine(Literal(HELP_TEXT), PURPLE, Codes(HELP_TEXT));
      } else if uptime {
        var reply := UptimeReply(e);
        ShellPrintLine(reply[..], CYAN, UptimeText(e));
      } else if meminfo {
        var reply := MeminfoReply(e);
        ShellPrintLine(reply[..], CYAN, MeminfoText(e));
      } else if clear {
        ClearScreen();
      } else if disktest {
        DiskTest();
      } else if cmdBuffer[0] != 0 {
        ShellPrintLine(Literal(UNKNOWN_TEXT), PURPLE, Codes(UNKNOWN_TEXT));
      }
    }

    // clear_shell_command
    method ClearShellCommand()
      requires Valid()
      modifies this`cmdIndex, this`commandReadyFlag, cmdBuffer
      ensures Valid() && cmdIndex == 0 && forall i :: 0 <= i < 64 ==> cmdBuffer[i] == 0
    {
      for i := 0 to 64
        invariant forall j :: 0 <= j < i ==> cmdBuffer[j] == 0
      {
        cmdBuffer[i] := 0;
      }
      cmdIndex := 0;
      commandReadyFlag := 0;
    }

    // get_shell_command never finds a command: the flag starts at 0 and no code
    // raises it.
    method GetShellCommand() returns (command: Option<seq<Byte>>)
      requires Valid()
      ensures command == None
    {
      var line := cmdBuffer[..];
      command := if commandReadyFlag == 1 then Some(line) else None;
    }

    method HandleEnter(e: Env)
      requires Valid() && Coupled(View()) && Sane(e)
      modifies this`cursor, this`cmdIndex, this`sectorOne, this`commandReadyFlag, video, cmdBuffer, diskTestPad
      ensures Valid() && View() == Enter(old(View()), e)
    {
      hide Advance;
      hide Run;
      AdvanceRow(View());
      ghost var line := View().line;
      cmdBuffer[cmdIndex] := 0;
      assert cmdBuffer[..cmdIndex] == line;
      NewRow();
      Dispatch(e);
      ClearShellCommand();
    }

    // keyboard_handler, with the scancode read from port 0x60.
    method KeyboardHandler(scancode: Byte, e: Env)
      requires Valid() && Coupled(View()) && Sane(e)
      modifies this, video, cmdBuffer, diskTestPad, keyboardMatrix
      ensures Valid() && View() == Press(old(View()), scancode, e) && Coupled(View())
      ensures keyboardMatrix[..] == Held(old(keyboardMatrix[..]), scancode)
      ensures acknowledged == old(acknowledged) + if scancode >= 0x80 then 1 else 2
    {
      hide Enter;
      hide Coupled;
      PressKeepsCoupled(View(), scancode, e);
      RecordKey(scancode);
      if scancode < 0x80 {
        EditLine(scancode, e);
        acknowledged := acknowledged + 1;
      }
    }

    // The key matrix, and the first end-of-interrupt write.
    method RecordKey(scancode: Byte)
      requires Valid()
      modifies this`acknowledged, keyboardMatrix
      ensures Valid() && View() == old(View())
      ensures keyboardMatrix[..] == Held(old(keyboardMatrix[..]), scancode) && acknowledged == old(acknowledged) + 1
    {
      if scancode >= 0x80 {
        keyboardMatrix[scancode - 0x80] := 0;
      } else {
        keyboardMatrix[scancode] := 1;
      }
      acknowledged := acknowledged + 1;
    }

    // What a pressed key does to the line.
    method EditLine(scancode: Byte, e: Env)
      requires Valid() && Coupled(View()) && Sane(e) && scancode < 0x80
      modifies this`cursor, this`cmdIndex, this`sectorOne, this`commandReadyFlag, video, cmdBuffer, diskTestPad
      ensures Valid() && View() == Press(old(View()), scancode, e)
    {
      hide Enter;
      ghost var t := View();
      var character := KeyChar(scancode);
      if character == NEWLINE {
        HandleEnter(e);
      } else if character == BACKSPACE && cmdIndex > 0 {
        cmdIndex := cmdIndex - 1;
        cmdBuffer[cmdIndex] := 0;
        cursor := cursor - 2;
        video[cursor] := SPACE;
        assert View() == Erase(t);
      } else if character != 0 && cmdIndex < 63 {
        cmdBuffer[cmdIndex] := character;
        cmdIndex := cmdIndex + 1;
        video[cursor] := character;
        video[cursor + 1] := YELLOW;
        cursor := cursor + 2;
        assert View() == Type(t, character);
      }
    }
  }

  // No two commands are spelt alike.
  lemma CommandsDiffer()
    ensures Codes("clear") != Codes("help") && Codes("clear") != Codes("uptime")
    ensures Codes("clear") != Codes("meminfo") && Codes("clear") != Codes("disktest")
    ensures Codes("uptime") != Codes("help") && Codes("meminfo") != Codes("help")
    ensures Codes("disktest") != Codes("uptime") && Codes("disktest") != Codes("meminfo")
    ensures Codes("clear") != [] && Codes("help") != [] && Codes("uptime") != []
    ensures Codes("meminfo") != [] && Codes("disktest") != [] && Codes("uptime") != Codes("meminfo")
  {
    assert |Codes("clear")| == 5 && |Codes("help")| == 4 && |Codes("uptime")| == 6;
    assert |Codes("meminfo")| == 7 && |Codes("disktest")| == 8;
  }

  lemma PrintedOne(v: seq<Byte>, at: nat, text: seq<Byte>, color: Byte, i: nat, w: seq<Byte>)
    requires i < |text| && at + 2 * |text| <= |v|
    requires w == Printed(v, at, text[..i], color)[at + 2 * i := text[i]][at + 2 * i + 1 := color]
    ensures w == Printed(v, at, text[..i + 1], color)
  {
    assert text[..i + 1] == text[..i] + [text[i]];
  }
}
