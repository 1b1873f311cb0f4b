/** Name entry on the touch screen (`get_name_input`): the player taps the
    labels of a three-row on-screen keyboard; `<` erases, `OK` hands back the
    name cut to ten characters, every other label is typed. Taps are given
    as the labels they landed on. */
module OnScreenKeyboard {
  import opened Slices

  /** `OK` hands back at most this many characters. */
  const MaxNameLength: nat := 10

  /** The labels of the three keyboard rows, left to right, top to bottom. */
  const Layout: seq<string> := [
    "A", "B", "C", "D", "E", "F", "G", "H", "I", "J",
    "K", "L", "M", "N", "O", "P", "Q", "R", "S", "T",
    "U", "V", "W", "X", "Y", "Z", ".", "<", "OK"]

  /** A key of the layout that types its own label. */
  predicate IsCharKey(key: string) {
    key in Layout && key != "<" && key != "OK"
  }

  /** Still editing `name`, or finished with `name` as the answer. */
  datatype Outcome = Typing(name: string) | Submitted(name: string)

  /** What one tap on the key labelled `key` does to the name typed so far. */
  function PressKey(name: string, key: string): (r: Outcome)
    ensures r.Submitted? <==> key == "OK"
    ensures r.Submitted? ==> |r.name| <= MaxNameLength && r.name <= name
    ensures r.Submitted? && |name| <= MaxNameLength ==> r.name == name
    ensures r.Submitted? ==> |r.name| == if |name| <= MaxNameLength then |name| else MaxNameLength
    ensures key == "<" ==> r.name <= name && |r.name| == if name == [] then 0 else |name| - 1
    ensures r.Typing? && key != "<" ==> |r.name| == |name| + |key| && r.name[..|name|] == name && r.name[|name|..] == key
  {
    if key == "<" then Typing(DropLast(name))
    else if key == "OK" then Submitted(Truncate(name, MaxNameLength))
    else Typing(name + key)
  }

  /** Erasing straight after typing a key of the layout restores the name. */
  lemma {:induction false} EraseUndoesKey(name: string, key: string)
    requires IsCharKey(key)
    ensures PressKey(PressKey(name, key).name, "<") == Typing(name)
  {
    assert |key| == 1;
    assert (name + key)[..|name|] == name;
  }

  /** Taps in order until the first `OK`; taps after it are never read. */
  function Run(name: string, taps: seq<string>): (r: Outcome)
    ensures r.Submitted? <==> "OK" in taps
    decreases |taps|
  {
    if taps == [] then Typing(name)
    else match PressKey(name, taps[0])
      case Submitted(n) => Submitted(n)
      case Typing(n) =>
        assert taps == [taps[0]] + taps[1..];
        Run(n, taps[1..])
  }

  /** Whatever was typed, the submitted name is at most ten characters. */
  lemma {:induction false} SubmittedNameFits(name: string, taps: seq<string>)
    requires Run(name, taps).Submitted?
    ensures |Run(name, taps).name| <= MaxNameLength
    decreases |taps|
  {
    if PressKey(name, taps[0]).Typing? {
      SubmittedNameFits(PressKey(name, taps[0]).name, taps[1..]);
    }
  }

  /** `n` taps on `<` erase the last `n` characters, or all of them. */
  lemma {:induction false} ErasingShortens(name: string, n: nat)
    ensures Run(name, seq(n, _ => "<")) == Typing(Truncate(name, if n <= |name| then |name| - n else 0))
    decreases n
  {
    var taps := seq(n, _ => "<");
    if n > 0 {
      assert taps[1..] == seq(n - 1, _ => "<");
      ErasingShortens(DropLast(name), n - 1);
    }
  }

  /** The taps that spell `word` on the keyboard, one key per character. */
  function Spell(word: string): (taps: seq<string>)
    ensures |taps| == |word|
    decreases |word|
  {
    if word == [] then [] else [[word[0]]] + Spell(word[1..])
  }

  lemma {:induction false} RunTyping(name: string, taps: seq<string>)
    requires taps != [] && PressKey(name, taps[0]).Typing?
    ensures Run(name, taps) == Run(PressKey(name, taps[0]).name, taps[1..])
  {
  }

  /** Taps that leave the name being typed are followed by the next ones. */
  lemma {:induction false} RunThen(name: string, first: seq<string>, rest: seq<string>)
    requires Run(name, first).Typing?
    ensures Run(name, first + rest) == Run(Run(name, first).name, rest)
    decreases |first|
  {
    if first == [] {
      assert first + rest == rest;
    } else {
      assert (first + rest)[0] == first[0] && (first + rest)[1..] == first[1..] + rest;
      RunTyping(name, first + rest);
      RunThen(PressKey(name, first[0]).name, first[1..], rest);
    }
  }

  lemma {:induction false} TypeChar(name: string, c: char)
    requires c != '<'
    ensures PressKey(name, [c]) == Typing(name + [c])
  {
  }

  lemma {:induction false} SpellFirst(name: string, word: string)
    requires word != [] && '<' !in word
    ensures '<' !in word[1..]
    ensures Run(name, Spell(word)) == Run(name + [word[0]], Spell(word[1..]))
  {
    TypeChar(name, word[0]);
    assert Spell(word)[0] == [word[0]] && Spell(word)[1..] == Spell(word[1..]);
    RunTyping(name, Spell(word));
  }

  /** Tapping the characters of a word one by one types exactly that word,
      provided none of them is the erase key (every other key of the layout
      is one character, and `OK` is two). */
  lemma {:induction false} SpellTypes(name: string, word: string)
    requires '<' !in word
    ensures Run(name, Spell(word)) == Typing(name + word)
    decreases |word|
  {
    if word == [] {
      assert name + word == name;
    } else {
      var key := [word[0]];
      SpellFirst(name, word);
      assert name + word == (name + key) + word[1..];
      SpellTypes(name + key, word[1..]);
    }
  }

  /** Spelling a word and pressing `OK` submits the name
      with the word appended, cut to ten characters. */
  lemma {:induction false} SpellThenSubmit(name: string, word: string)
    requires '<' !in word
    ensures Run(name, Spell(word) + ["OK"]) == Submitted(Truncate(name + word, MaxNameLength))
  {
    SpellTypes(name, word);
    RunThen(name, Spell(word), ["OK"]);
    assert PressKey(name + word, "OK") == Submitted(Truncate(name + word, MaxNameLength));
  }

  /** `get_name_input`, over the taps made before the program stops reading:
      `Typing` means no `OK` has been tapped yet. */
  method GetNameInput(taps: seq<string>) returns (r: Outcome)
    ensures r == Run("", taps)
  {
    var name := "";
    var i := 0;
    while i < |taps|
      invariant 0 <= i <= |taps|
      invariant Run(name, taps[i..]) == Run("", taps)
    {
      var key := taps[i];
      assert taps[i..] == [key] + taps[i + 1..];
      if key == "<" {
        name := DropLast(name);
      } else if key == "OK" {
        return Submitted(Truncate(name, MaxNameLength));
      } else {
        name := name + key;
      }
      i := i + 1;
    }
    return Typing(name);
  }
}
