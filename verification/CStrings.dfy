// NUL-terminated strings in byte buffers.
module CStrings {
  import opened Memory

  // A pointer that may be null, or a lookup that may find nothing.
  datatype Option<T> = None | Some(value: T)

  // src holds text followed by a NUL.
  ghost predicate CString(src: seq<Byte>, text: seq<Byte>) {
    && |text| < |src| && text == src[..|text|] && src[|text|] == 0
    && NoZero(text)
  }

  predicate NoZero(s: seq<Byte>) {
    forall i :: 0 <= i < |s| ==> s[i] != 0
  }

  lemma EndOfText(src: seq<Byte>, text: seq<Byte>, i: nat)
    requires CString(src, text) && i <= |text|
    ensures i < |src| && (src[i] == 0 <==> i == |text|)
    ensures i < |text| ==> src[i] == text[i]
  {
  }

  // What a bounded copy keeps of a text.
  function Kept(text: seq<Byte>, most: nat): (kept: seq<Byte>)
    ensures kept <= text && |kept| == if |text| <= most then |text| else most
  {
    if |text| <= most then text else text[..most]
  }

  // ---- Fixed-width character buffers, one per row ----

  // The buffer in that row holds text and a NUL.
  ghost predicate RowHolds(table: array2<Byte>, row: nat, text: seq<Byte>)
    requires row < table.Length0
    reads table
  {
    && |text| < table.Length1 && table[row, |text|] == 0
    && forall k :: 0 <= k < |text| ==> table[row, k] == text[k] && text[k] != 0
  }

  // The bounded copy of src/vocab.cpp and src/vfat.cpp: as much of text as leaves
  // room for the NUL. Bytes behind the NUL and the other rows stay as they were.
  method CopyRow(table: array2<Byte>, row: nat, src: seq<Byte>, ghost text: seq<Byte>)
    requires row < table.Length0 && table.Length1 > 0 && CString(src, text)
    modifies table
    ensures RowHolds(table, row, Kept(text, table.Length1 - 1))
    ensures forall j, k :: 0 <= j < table.Length0 && 0 <= k < table.Length1 ==>
              j != row || k > |Kept(text, table.Length1 - 1)| ==> table[j, k] == old(table[j, k])
  {
    var i := 0;
    while src[i] != 0 && i < table.Length1 - 1
      invariant 0 <= i <= |text| && i < table.Length1
      invariant forall k :: 0 <= k < i ==> table[row, k] == text[k]
      invariant forall j, k :: 0 <= j < table.Length0 && 0 <= k < table.Length1 ==>
                  j != row || k >= i ==> table[j, k] == old(table[j, k])
      decreases |text| - i
    {
      table[row, i] := src[i];
      i := i + 1;
    }
    table[row, i] := 0;
    assert |Kept(text, table.Length1 - 1)| == i;
  }

  // The bytes of one row, as the caller of a lookup sees them.
  function Row(table: array2<Byte>, row: nat): (bytes: seq<Byte>)
    requires row < table.Length0
    reads table
    ensures |bytes| == table.Length1 && forall k :: 0 <= k < |bytes| ==> bytes[k] == table[row, k]
  {
    seq(table.Length1, k requires 0 <= k < table.Length1 reads table => table[row, k])
  }

  lemma RowIsCString(table: array2<Byte>, row: nat, text: seq<Byte>)
    requires row < table.Length0 && RowHolds(table, row, text)
    ensures CString(Row(table, row), text)
  {
    assert Row(table, row)[..|text|] == text;
  }
}
