// The text side of Fontana: the rolling context window of src/tokenizer.cpp and the
// vocabulary of src/vocab.cpp, refined to plain histories and words.
module Fontana {
  import opened Memory
  import opened CStrings
  import opened Tensor

  const MAX_TOKEN_STR_LEN: nat := 16
  const OUT_OF_VOCABULARY: nat := 255

  // ---- Context window ----

  // The last 32 tokens pushed, oldest first, padded with zeros while filling.
  function Window(pushed: seq<nat>): (w: seq<nat>)
    ensures |w| == 32
    ensures forall i :: 0 <= i < 32 ==>
              w[i] == if |pushed| >= 32 then pushed[|pushed| - 32 + i] else if i < |pushed| then pushed[i] else 0
  {
    if |pushed| <= CONTEXT_LEN then pushed + seq(CONTEXT_LEN - |pushed|, _ => 0)
    else pushed[|pushed| - CONTEXT_LEN..]
  }

  class Tokenizer {
    const history: array<nat>
    var currentIndex: nat
    var totalTokensProcessed: Word
    ghost var pushed: seq<nat>

    ghost predicate Valid()
      reads this, history
    {
      && history.Length == CONTEXT_LEN
      && history[..] == Window(pushed)
      && currentIndex == (if |pushed| < CONTEXT_LEN then |pushed| else CONTEXT_LEN)
      && totalTokensProcessed == Wrap(|pushed|)
    }

    // init_tokenizer_routing
    constructor ()
      ensures Valid() && fresh(history) && pushed == []
    {
      history := new nat[CONTEXT_LEN](_ => 0);
      currentIndex := 0;
      totalTokensProcessed := 0;
      pushed := [];
    }

    // push_token_to_context
    method Push(token: nat)
      requires Valid()
      modifies this, history
      ensures Valid() && pushed == old(pushed) + [token]
    {
      hide Window;
      hide Wrap;
      WindowSlides(pushed, token);
      ghost var was := history[..];
      if currentIndex < CONTEXT_LEN {
        history[currentIndex] := token;
        currentIndex := currentIndex + 1;
      } else {
        for i := 0 to CONTEXT_LEN - 1
          invariant currentIndex == old(currentIndex) && pushed == old(pushed)
          invariant totalTokensProcessed == old(totalTokensProcessed)
          invariant forall j :: 0 <= j < i ==> history[j] == was[j + 1]
          invariant forall j :: i <= j < CONTEXT_LEN ==> history[j] == was[j]
        {
          history[i] := history[i + 1];
        }
        history[CONTEXT_LEN - 1] := token;
      }
      totalTokensProcessed := Wrap(totalTokensProcessed + 1);
      pushed := pushed + [token];
    }
  }

  lemma WindowSlides(pushed: seq<nat>, token: nat)
    ensures var w, w' := Window(pushed), Window(pushed + [token]);
            if |pushed| < CONTEXT_LEN then w' == w[|pushed| := token] else w' == w[1..] + [token]
    ensures Wrap(Wrap(|pushed|) + 1) == Wrap(|pushed| + 1)
  {
  }

  // Whatever came before the last 32 tokens, and in whatever order those came, the
  // forward pass of the window gives the same output.
  lemma OldTokensForgotten<F>(a: Arith<F>, x: seq<nat>, y: seq<nat>, recentX: seq<nat>, recentY: seq<nat>,
                             outX: seq<F>, outY: seq<F>)
    requires |recentX| == 32 && multiset(recentX) == multiset(recentY)
    requires LayerIs(a, outX, Window(x + recentX)) && LayerIs(a, outY, Window(y + recentY))
    ensures outX == outY
  {
    assert |recentY| == |multiset(recentY)| == |multiset(recentX)| == CONTEXT_LEN;
    assert Window(x + recentX) == recentX && Window(y + recentY) == recentY;
    OrderFree(a, recentX, recentY, outX, outY);
  }

  // ---- Vocabulary ----

  // What vocab_strcpy keeps of a text.
  function Stored(text: seq<Byte>): seq<Byte> {
    Kept(text, MAX_TOKEN_STR_LEN - 1)
  }

  // The words after a history of mappings: the latest mapping of each id, if any.
  function Words(maps: seq<(nat, seq<Byte>)>): (w: seq<seq<Byte>>)
    ensures |w| == VOCAB_SIZE
  {
    if maps == [] then seq(VOCAB_SIZE, _ => [])
    else
      var before := Words(maps[..|maps| - 1]);
      var (id, text) := maps[|maps| - 1];
      if id < VOCAB_SIZE then before[id := Stored(text)] else before
  }

  class Vocabulary {
    const table: array2<Byte>
    ghost var maps: seq<(nat, seq<Byte>)>

    ghost predicate Valid()
      reads this, table
    {
      && table.Length0 == VOCAB_SIZE && table.Length1 == MAX_TOKEN_STR_LEN
      && forall id :: 0 <= id < VOCAB_SIZE ==> RowHolds(table, id, Words(maps)[id])
    }

    // init_vocab_parser; only the first character of each string is cleared.
    constructor (memory: array2<Byte>)
      requires memory.Length0 == VOCAB_SIZE && memory.Length1 == MAX_TOKEN_STR_LEN
      modifies memory
      ensures Valid() && table == memory && maps == []
    {
      table := memory;
      maps := [];
      new;
      for i := 0 to VOCAB_SIZE
        invariant maps == [] && forall j :: 0 <= j < i ==> table[j, 0] == 0
      {
        table[i, 0] := 0;
      }
    }

    // add_vocab_mapping; a null string or an id out of range changes nothing.
    method AddMapping(id: nat, str: Option<seq<Byte>>, ghost text: seq<Byte>)
      requires Valid() && (str.Some? ==> CString(str.value, text))
      modifies this, table
      ensures Valid() && maps == if str.Some? then old(maps) + [(id, text)] else old(maps)
    {
      if str.None? { return; }
      assert (maps + [(id, text)])[..|maps|] == maps;
      if id < VOCAB_SIZE { CopyRow(table, id, str.value, text); }
      maps := maps + [(id, text)];
    }

    // token_strcmp against the stored string of id.
    method Matches(src: seq<Byte>, id: nat, ghost text: seq<Byte>) returns (equal: bool)
      requires Valid() && CString(src, text) && id < VOCAB_SIZE
      ensures equal <==> text == Words(maps)[id]
    {
      ghost var word := Words(maps)[id];
      assert RowHolds(table, id, word);
      var i := 0;
      while src[i] != 0 && table[id, i] != 0
        invariant 0 <= i <= |text| && i <= |word| && text[..i] == word[..i]
        decreases |text| - i
      {
        if src[i] != table[id, i] {
          assert text[i] != word[i];
          return false;
        }
        i := i + 1;
      }
      equal := src[i] == 0 && table[id, i] == 0;
      assert equal ==> i == |text| == |word|;
    }

    // tokenize_string_slice; a null pointer counts as the empty word.
    method Tokenize(str: Option<seq<Byte>>, ghost text: seq<Byte>) returns (id: nat)
      requires Valid() && (str.Some? ==> CString(str.value, text))
      ensures id == if str.Some? then TokenOf(Words(maps), text) else 0
    {
      if str.None? || str.value[0] == 0 { return 0; }
      for i := 0 to VOCAB_SIZE
        invariant text !in Words(maps)[..i]
      {
        var found := Matches(str.value, i, text);
        if found {
          FirstIs(Words(maps), text, i);
          return i;
        }
      }
      assert Words(maps)[..VOCAB_SIZE] == Words(maps);
      return OUT_OF_VOCABULARY;
    }
  }

  function First(words: seq<seq<Byte>>, w: seq<Byte>): (i: nat)
    requires w in words
    ensures i < |words| && words[i] == w && w !in words[..i]
  {
    if words[0] == w then 0
    else
      var i := First(words[1..], w) + 1;
      assert words[..i] == [words[0]] + words[1..][..i - 1];
      i
  }

  lemma FirstIs(words: seq<seq<Byte>>, w: seq<Byte>, i: nat)
    requires i < |words| && words[i] == w && w !in words[..i]
    ensures First(words, w) == i
  {
    var j := First(words, w);
    InPrefix(words, i, j);
    InPrefix(words, j, i);
  }

  lemma InPrefix(words: seq<seq<Byte>>, i: nat, j: nat)
    requires i <= |words| && j <= |words|
    ensures i < j ==> words[i] in words[..j]
  {
    if i < j { assert words[..j][i] == words[i]; }
  }

  // Least id of the word, 255 for unknown words, 0 for the empty word.
  function TokenOf(words: seq<seq<Byte>>, w: seq<Byte>): nat {
    if w == [] then 0 else if w in words then First(words, w) else OUT_OF_VOCABULARY
  }

  // A word just mapped is found again under its own id, provided it is non-empty,
  // kept whole by the 15-character limit, and no smaller id holds the same word.
  lemma MappedWordIsFound(maps: seq<(nat, seq<Byte>)>, id: nat, text: seq<Byte>)
    requires id < 256 && text != []
    ensures var words := Words(maps + [(id, text)]);
            TokenOf(words, text) == id <==>
              if |text| <= 15 then text !in Words(maps)[..id] else id == 255
  {
    var all := maps + [(id, text)];
    assert all[..|maps|] == maps;
    var words := Words(all);
    assert words == Words(maps)[id := Stored(text)] && words[..id] == Words(maps)[..id];
    if |text| < MAX_TOKEN_STR_LEN {
      if text !in Words(maps)[..id] { FirstIs(words, text, id); }
    } else {
      StoredLength(all);
    }
  }

  // Two words that are not found again: one too long, one that id 0 holds already.
  lemma LostWords(long: seq<Byte>, word: seq<Byte>)
    requires |long| == 16 && 0 < |word| <= 15
    ensures TokenOf(Words([(0, long)]), long) == 255
    ensures TokenOf(Words([(0, word), (1, word)]), word) == 0
  {
    var first := [(0, word)];
    assert first[..0] == [] && Words(first) == Words([])[0 := word];
    assert [(0, word), (1, word)][..1] == first;
    FirstIs(Words([(0, word), (1, word)]), word, 0);
    StoredLength([(0, long)]);
  }

  lemma {:induction false} StoredLength(maps: seq<(nat, seq<Byte>)>)
    ensures forall i :: 0 <= i < VOCAB_SIZE ==> |Words(maps)[i]| < MAX_TOKEN_STR_LEN
  {
    if maps != [] { StoredLength(maps[..|maps| - 1]); }
  }
}
