/** Name entry on a physical keyboard (`prompt_for_name`, from game.py's
    additions to the game). The loop redraws, then handles every event the
    window has queued since the last frame; the `running` flag that Return
    clears is only looked at between frames, so the rest of that frame's
    events are still handled. */
module KeyboardPrompt {
  import opened Wrappers
  import opened Slices

  /** Typing stops adding characters once the name is this long. */
  const MaxNameLength: nat := 10

  /** The answer when the window is closed during entry. */
  const AnonymousName: string := "Anonim"

  /** The keys the prompt tells apart; every other key types its text. */
  datatype Key = Return | Backspace | OtherKey

  /** A queued window event: the window closing, a key going down with the
      text it produces, or anything else (mouse, focus, key release). */
  datatype Event = Quit | KeyDown(key: Key, text: string) | Ignored

  /** The prompt's two locals, `name` and `running`. */
  datatype Prompt = Prompt(name: string, running: bool)

  /** How `prompt_for_name` ends: with an answer, or still waiting when the
      frames run out. */
  datatype PromptResult = Entered(name: string) | Waiting(name: string)

  /** One key press. */
  function HandleKey(p: Prompt, key: Key, text: string): (r: Prompt)
    ensures r.running <==> p.running && !(key == Return && |p.name| > 0)
    ensures key == Backspace ==> r.name == DropLast(p.name)
    ensures key == Return && |p.name| > 0 ==> r.name == p.name
    ensures key != Backspace && |p.name| >= MaxNameLength ==> r.name == p.name
    ensures key == OtherKey && |p.name| < MaxNameLength ==> r.name == p.name + text
    ensures key == Return && p.name == [] ==> r.name == text
  {
    if key == Return && |p.name| > 0 then p.(running := false)
    else if key == Backspace then p.(name := DropLast(p.name))
    else if |p.name| < MaxNameLength then p.(name := p.name + text)
    else p
  }

  predicate HasQuit(events: seq<Event>) {
    exists i :: 0 <= i < |events| && events[i] == Quit
  }

  /** The `for event in pygame.event.get()` loop over one frame's events:
      `None` when a Quit among them makes the prompt return at once. */
  function HandleEvents(p: Prompt, events: seq<Event>): (r: Option<Prompt>)
    ensures r.None? <==> HasQuit(events)
    decreases |events|
  {
    if events == [] then Some(p)
    else
      assert forall i :: 1 <= i < |events| ==> events[i] == events[1..][i - 1];
      match events[0]
      case Quit => None
      case KeyDown(key, text) => HandleEvents(HandleKey(p, key, text), events[1..])
      case Ignored => HandleEvents(p, events[1..])
  }

  /** The `while running` loop, one frame of events per iteration. */
  function Prompting(p: Prompt, frames: seq<seq<Event>>): (r: PromptResult)
    ensures !p.running ==> r == Entered(p.name)
    ensures r.Waiting? ==> forall i :: 0 <= i < |frames| ==> !HasQuit(frames[i])
    decreases |frames|
  {
    if !p.running then Entered(p.name)
    else if frames == [] then Waiting(p.name)
    else match HandleEvents(p, frames[0])
      case None => Entered(AnonymousName)
      case Some(q) =>
        assert forall i :: 1 <= i < |frames| ==> frames[i] == frames[1..][i - 1];
        Prompting(q, frames[1..])
  }

  /** Closing the window in a frame the prompt handles answers "Anonim". */
  lemma {:induction false} QuitAnswersAnonymous(p: Prompt, frames: seq<seq<Event>>)
    requires p.running && frames != [] && HasQuit(frames[0])
    ensures Prompting(p, frames) == Entered(AnonymousName)
  {
  }

  /** Every key text is at most one character (pygame's `unicode`). */
  predicate SingleCharTexts(events: seq<Event>) {
    forall i :: 0 <= i < |events| && events[i].KeyDown? ==> |events[i].text| <= 1
  }

  lemma {:induction false} HandleEventsKeepsShort(p: Prompt, events: seq<Event>)
    requires |p.name| <= MaxNameLength && SingleCharTexts(events)
    ensures HandleEvents(p, events).Some? ==> |HandleEvents(p, events).value.name| <= MaxNameLength
    decreases |events|
  {
    if events != [] {
      assert SingleCharTexts(events[1..]) by {
        forall i | 0 <= i < |events[1..]| && events[1..][i].KeyDown?
          ensures |events[1..][i].text| <= 1
        {
          assert events[1..][i] == events[i + 1];
        }
      }
      match events[0]
      case Quit =>
      case KeyDown(key, text) => HandleEventsKeepsShort(HandleKey(p, key, text), events[1..]);
      case Ignored => HandleEventsKeepsShort(p, events[1..]);
    }
  }

  /** With one-character key texts the name never grows past ten
      characters, whatever is typed. */
  lemma {:induction false} NameStaysShort(p: Prompt, frames: seq<seq<Event>>)
    requires |p.name| <= MaxNameLength
    requires forall i :: 0 <= i < |frames| ==> SingleCharTexts(frames[i])
    ensures |Prompting(p, frames).name| <= MaxNameLength
    decreases |frames|
  {
    if p.running && frames != [] {
      HandleEventsKeepsShort(p, frames[0]);
      var q := HandleEvents(p, frames[0]);
      if q.Some? {
        assert forall i :: 1 <= i < |frames| ==> frames[i] == frames[1..][i - 1];
        NameStaysShort(q.value, frames[1..]);
      }
    }
  }

  /** Backspace takes back a character typed while there was room. */
  lemma {:induction false} BackspaceUndoesTyping(p: Prompt, c: char, t: string)
    requires |p.name| < MaxNameLength
    ensures HandleKey(HandleKey(p, OtherKey, [c]), Backspace, t) == p
  {
    assert (p.name + [c])[..|p.name|] == p.name;
  }

  /** One frame per character of `word`, each a single key press. */
  function TypeFrames(word: string): (frames: seq<seq<Event>>)
    ensures |frames| == |word|
    ensures forall i :: 0 <= i < |word| ==> frames[i] == [KeyDown(OtherKey, [word[i]])]
  {
    seq(|word|, i requires 0 <= i < |word| => [KeyDown(OtherKey, [word[i]])])
  }

  /** Typing a word that fits and pressing Return enters exactly that word
      after what was already there. */
  lemma {:induction false} TypeThenReturn(name: string, word: string, t: string)
    requires |name| + |word| <= MaxNameLength && |name| + |word| > 0
    ensures Prompting(Prompt(name, true), TypeFrames(word) + [[KeyDown(Return, t)]]) == Entered(name + word)
    decreases |word|
  {
    var frames := TypeFrames(word) + [[KeyDown(Return, t)]];
    if word == [] {
      assert name + word == name;
      assert frames[0][1..] == [];
      assert HandleEvents(Prompt(name, true), frames[0]) == Some(Prompt(name, false));
    } else {
      var first := [KeyDown(OtherKey, [word[0]])];
      assert frames[0] == first;
      assert first[1..] == [];
      assert HandleEvents(Prompt(name, true), first) == Some(Prompt(name + [word[0]], true));
      assert frames[1..] == TypeFrames(word[1..]) + [[KeyDown(Return, t)]];
      assert name + word == (name + [word[0]]) + word[1..];
      TypeThenReturn(name + [word[0]], word[1..], t);
    }
  }

  /** Return on an empty name does not finish: it types its own text (a
      carriage return), after which a second Return enters that text. */
  lemma {:induction false} ReturnOnEmptyNameTypesIt()
    ensures Prompting(Prompt("", true), [[KeyDown(Return, "\r")]]) == Waiting("\r")
    ensures Prompting(Prompt("", true), [[KeyDown(Return, "\r")], [KeyDown(Return, "\r")]]) == Entered("\r")
  {
    var ret := [KeyDown(Return, "\r")];
    assert ret[1..] == [];
    assert HandleEvents(Prompt("", true), ret) == Some(Prompt("\r", true));
    assert HandleEvents(Prompt("\r", true), ret) == Some(Prompt("\r", false));
    assert [ret, ret][1..] == [ret];
  }

  /** Keys after Return in the same frame still edit the name: typing "a",
      then Return and Backspace together, enters the empty name. */
  lemma {:induction false} KeysAfterReturnStillEdit()
    ensures Prompting(Prompt("", true), [[KeyDown(OtherKey, "a")], [KeyDown(Return, "\r"), KeyDown(Backspace, "")]]) == Entered("")
  {
    var typeA := [KeyDown(OtherKey, "a")];
    var both := [KeyDown(Return, "\r"), KeyDown(Backspace, "")];
    assert typeA[1..] == [];
    assert HandleKey(Prompt("", true), OtherKey, "a") == Prompt("a", true);
    assert HandleEvents(Prompt("", true), typeA) == Some(Prompt("a", true));
    assert both[1..][1..] == [];
    assert HandleEvents(Prompt("a", false), both[1..]) == Some(Prompt("", false));
    assert HandleEvents(Prompt("a", true), both) == Some(Prompt("", false));
    assert [typeA, both][1..] == [both];
  }

  /** `prompt_for_name`, over the frames of events the loop reads before it
      stops: `Waiting` means it was still prompting when they ran out. */
  method PromptForName(frames: seq<seq<Event>>) returns (r: PromptResult)
    ensures r == Prompting(Prompt("", true), frames)
  {
    var name := "";
    var running := true;
    var f := 0;
    while running && f < |frames|
      invariant 0 <= f <= |frames|
      invariant Prompting(Prompt(name, running), frames[f..]) == Prompting(Prompt("", true), frames)
    {
      var events := frames[f];
      ghost var before := Prompt(name, running);
      assert frames[f..][0] == events && frames[f..][1..] == frames[f + 1..];
      for i := 0 to |events|
        invariant HandleEvents(Prompt(name, running), events[i..]) == HandleEvents(before, events)
      {
        assert events[i..][1..] == events[i + 1..];
        match events[i]
        case Quit =>
          return Entered(AnonymousName);
        case KeyDown(key, text) =>
          if key == Return && |name| > 0 {
            running := false;
          } else if key == Backspace {
            name := DropLast(name);
          } else if |name| < MaxNameLength {
            name := name + text;
          }
        case Ignored =>
      }
      f := f + 1;
    }
    if running {
      return Waiting(name);
    }
    return Entered(name);
  }
}
