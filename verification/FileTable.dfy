// The eight-entry RAM disk of src/vfat.cpp, refined to the sequence of creates.
module FileTable {
  import opened Memory
  import opened CStrings

  const MAX_FILE_ENTRIES: nat := 8
  const MAX_FILENAME_LEN: nat := 12
  const PAYLOAD_LEN: nat := 64
  const NO_SLOT: nat := 0xFFFF_FFFF

  // An entry apart from its two character buffers.
  datatype Entry = Entry(folder: Word, size: nat, active: bool)

  datatype File = File(name: seq<Byte>, folder: Word, content: seq<Byte>)

  // What is stored of a file: 11 characters of its name, 63 of its content, and a
  // size that counts up to 64.
  function ShortName(f: File): seq<Byte> {
    Kept(f.name, MAX_FILENAME_LEN - 1)
  }

  function Payload(f: File): seq<Byte> {
    Kept(f.content, PAYLOAD_LEN - 1)
  }

  function Size(f: File): nat {
    |Kept(f.content, PAYLOAD_LEN)|
  }

  // The recorded size is the number of characters kept exactly for contents of at
  // most 63 characters; a longer one is recorded one too large.
  lemma SizeIsRight(f: File)
    ensures Size(f) == |Payload(f)| <==> |f.content| <= 63
    ensures |f.content| >= 64 ==> Size(f) == 64 && |Payload(f)| == 63
  {
  }

  // The files of one folder, in the order they were created.
  function InFolder(files: seq<File>, folder: Word): seq<File> {
    if files == [] then []
    else
      var last := files[|files| - 1];
      InFolder(files[..|files| - 1], folder) + if last.folder == folder then [last] else []
  }

  // The table keeps the first eight creates.
  function Table(created: seq<File>): (table: seq<File>)
    ensures table <= created && |table| == if |created| < 8 then |created| else 8
  {
    if |created| <= MAX_FILE_ENTRIES then created else created[..MAX_FILE_ENTRIES]
  }

  method BoundedLength(src: seq<Byte>, ghost text: seq<Byte>) returns (len: nat)
    requires CString(src, text)
    ensures len == |Kept(text, PAYLOAD_LEN)|
  {
    len := 0;
    while src[len] != 0 && len < PAYLOAD_LEN
      invariant 0 <= len <= |text| && len <= PAYLOAD_LEN
      decreases |text| - len
    {
      len := len + 1;
    }
  }

  class VRamDisk {
    const files: array<Entry>
    const filenames: array2<Byte>
    const payloads: array2<Byte>
    var activeFilesCount: nat
    ghost var created: seq<File>

    ghost predicate Valid()
      reads this, files, filenames, payloads
    {
      && HasSlots()
      && files.Length == MAX_FILE_ENTRIES && activeFilesCount == |Table(created)|
      && (forall i :: 0 <= i < activeFilesCount ==> Holds(i, Table(created)[i]))
      && forall i :: activeFilesCount <= i < MAX_FILE_ENTRIES ==> !files[i].active
    }

    ghost predicate HasSlots() {
      && files.Length == filenames.Length0 == payloads.Length0 == MAX_FILE_ENTRIES
      && filenames.Length1 == MAX_FILENAME_LEN && payloads.Length1 == PAYLOAD_LEN && filenames != payloads
    }

    ghost predicate Holds(i: nat, f: File)
      requires HasSlots() && i < MAX_FILE_ENTRIES
      reads files, filenames, payloads
    {
      && files[i] == Entry(f.folder, Size(f), true)
      && RowHolds(filenames, i, ShortName(f)) && RowHolds(payloads, i, Payload(f))
    }

    // init_vfat_disk; of each buffer only the first character is cleared.
    constructor ()
      ensures Valid() && fresh(files) && fresh(filenames) && fresh(payloads) && created == []
    {
      files := new Entry[MAX_FILE_ENTRIES](_ => Entry(0xFFFF_FFFF, 0, false));
      filenames := new Byte[MAX_FILE_ENTRIES, MAX_FILENAME_LEN];
      payloads := new Byte[MAX_FILE_ENTRIES, PAYLOAD_LEN];
      activeFilesCount := 0;
      created := [];
      new;
      for i := 0 to MAX_FILE_ENTRIES
        invariant created == [] && activeFilesCount == 0
        invariant forall j :: 0 <= j < MAX_FILE_ENTRIES ==> !files[j].active
      {
        filenames[i, 0] := 0;
        payloads[i, 0] := 0;
      }
    }

    // create_virtual_file
    method CreateVirtualFile(name: seq<Byte>, folder: Word, content: seq<Byte>, ghost f: File)
      requires Valid() && CString(name, f.name) && CString(content, f.content) && f.folder == folder
      modifies this`activeFilesCount, this`created, files, filenames, payloads
      ensures Valid() && created == old(created) + [f]
    {
      if activeFilesCount < MAX_FILE_ENTRIES {
        // A slot is always found, so the kernel's second bail-out never fires.
        var target := FindFreeSlot();
        CopyRow(filenames, target, name, f.name);
        CopyRow(payloads, target, content, f.content);
        var len := BoundedLength(content, f.content);
        files[target] := Entry(folder, len, true);
        activeFilesCount := activeFilesCount + 1;
      }
      created := created + [f];
    }

    method FindFreeSlot() returns (target: nat)
      requires Valid() && activeFilesCount < MAX_FILE_ENTRIES
      ensures target == activeFilesCount
    {
      target := NO_SLOT;
      for i := 0 to MAX_FILE_ENTRIES
        invariant target == NO_SLOT && i <= activeFilesCount
      {
        assert i < activeFilesCount ==> Holds(i, Table(created)[i]);
        if !files[i].active { return i; }
      }
    }

    // get_virtual_file_name and get_virtual_file_content share this walk.
    method FindInFolder(index: nat, folder: Word) returns (slot: Option<nat>)
      requires Valid()
      ensures var mine := InFolder(Table(created), folder);
              if index < |mine| then 
                slot.Some? && slot.value < MAX_FILE_ENTRIES && Holds(slot.value, mine[index])
              else slot == None
    {
      hide RowHolds;
      ghost var table := Table(created);
      var matches := 0;
      for i := 0 to MAX_FILE_ENTRIES
        invariant i <= |table| ==> matches == |InFolder(table[..i], folder)|
        invariant i > |table| ==> matches == |InFolder(table, folder)|
        invariant matches <= index
      {
        if i < |table| {
          FolderGrows(table, i, folder);
        } else {
          assert table[..|table|] == table;
        }
        if files[i].active && files[i].folder == folder {
          if matches == index { return Some(i); }
          matches := matches + 1;
        }
      }
      assert table[..|table|] == table;
      slot := None;
    }

    method GetVirtualFileName(index: nat, folder: Word) returns (name: Option<seq<Byte>>)
      requires Valid()
      ensures var mine := InFolder(Table(created), folder);
              if index < |mine| then name.Some? && CString(name.value, Kept(mine[index].name, 11)) else name == None
    {
      var slot := FindInFolder(index, folder);
      if slot.None? { return None; }
      RowIsCString(filenames, slot.value, ShortName(InFolder(Table(created), folder)[index]));
      name := Some(Row(filenames, slot.value));
    }

    method GetVirtualFileContent(index: nat, folder: Word) returns (content: Option<seq<Byte>>)
      requires Valid()
      ensures var mine := InFolder(Table(created), folder);
              if index < |mine| then content.Some? && CString(content.value, Kept(mine[index].content, 63))
              else content == None
    {
      var slot := FindInFolder(index, folder);
      if slot.None? { return None; }
      RowIsCString(payloads, slot.value, Payload(InFolder(Table(created), folder)[index]));
      content := Some(Row(payloads, slot.value));
    }

    method GetFolderFileCount(folder: Word) returns (total: nat)
      requires Valid()
      ensures total == |InFolder(Table(created), folder)|
    {
      ghost var table := Table(created);
      total := 0;
      for i := 0 to MAX_FILE_ENTRIES
        invariant i <= |table| ==> total == |InFolder(table[..i], folder)|
        invariant i > |table| ==> total == |InFolder(table, folder)|
      {
        if i < |table| {
          FolderGrows(table, i, folder);
        } else {
          assert table[..|table|] == table;
        }
        if files[i].active && files[i].folder == folder { total := total + 1; }
      }
      assert table[..|table|] == table;
    }
  }

  // The folder's list grows by the next file if it belongs there, and what is
  // already listed keeps its place.
  lemma FolderGrows(files: seq<File>, i: nat, folder: Word)
    requires i < |files|
    ensures InFolder(files[..i + 1], folder) == InFolder(files[..i], folder)
              + if files[i].folder == folder then [files[i]] else []
    ensures InFolder(files[..i + 1], folder) <= InFolder(files, folder)
  {
    assert files[..i + 1][..i] == files[..i];
    FolderPrefix(files, i + 1, folder);
  }

  lemma {:induction false} FolderPrefix(files: seq<File>, i: nat, folder: Word)
    requires i <= |files|
    ensures InFolder(files[..i], folder) <= InFolder(files, folder)
  {
    if i < |files| {
      FolderPrefix(files[..|files| - 1], i, folder);
      assert files[..|files| - 1][..i] == files[..i];
    } else {
      assert files[..i] == files;
    }
  }

  function CountAll(files: seq<File>, folders: seq<Word>): nat {
    if folders == [] then 0 else |InFolder(files, folders[0])| + CountAll(files, folders[1..])
  }

  ghost predicate Distinct(folders: seq<Word>) {
    forall i, j :: 0 <= i < j < |folders| ==> folders[i] != folders[j]
  }

  // Every file is counted in exactly one folder.
  lemma {:induction false} FoldersPartition(files: seq<File>, folders: seq<Word>)
    requires Distinct(folders) && forall i :: 0 <= i < |files| ==> files[i].folder in folders
    ensures CountAll(files, folders) == |files|
  {
    if files == [] {
      NothingToCount(folders);
    } else {
      var front := files[..|files| - 1];
      FoldersPartition(front, folders);
      OneMore(files, folders);
    }
  }

  lemma {:induction false} NothingToCount(folders: seq<Word>)
    ensures CountAll([], folders) == 0
  {
    if folders != [] { NothingToCount(folders[1..]); }
  }

  lemma {:induction false} OneMore(files: seq<File>, folders: seq<Word>)
    requires files != [] && Distinct(folders)
    ensures CountAll(files, folders) == CountAll(files[..|files| - 1], folders)
              + if files[|files| - 1].folder in folders then 1 else 0
  {
    if folders != [] {
      OneMore(files, folders[1..]);
      assert forall f :: f in folders <==> f == folders[0] || f in folders[1..];
    }
  }
}
