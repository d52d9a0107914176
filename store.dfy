/**
 * The flashcard file of translator.py: `save_flashcards`, `load_flashcards`
 * and `delete_flashcard` all work on one JSON file, `flashcards.json`.
 * The file is abstracted to what these functions can tell apart: absent,
 * whitespace only, not decodable, or a decoded list of cards.
 */
module Store {
  import opened Flashcards

  datatype StoredFile =
    | Missing                       // `os.path.exists` is false
    | Blank                         // the text strips to ""
    | Unparsable                    // `json.load` raises
    | Saved(cards: seq<Flashcard>)  // a JSON list of cards

  /** What `load_flashcards` returns for a file: the stored cards, and `[]`
      in every other case, a decoding error included (it is reported and
      swallowed). */
  function Loaded(f: StoredFile): seq<Flashcard> {
    if f.Saved? then f.cards else []
  }

  /** `save_flashcards` writes only when the existing content could be read. */
  predicate SaveSucceeds(f: StoredFile) {
    !f.Unparsable?
  }

  /** The file after `save_flashcards(cards)`. */
  function AfterSave(f: StoredFile, cards: seq<Flashcard>): StoredFile {
    if SaveSucceeds(f) then Saved(Loaded(f) + cards) else f
  }

  /** `delete_flashcard` writes only for an index of the loaded list. */
  predicate DeleteSucceeds(f: StoredFile, index: int) {
    0 <= index < |Loaded(f)|
  }

  /** `del cards[index]` */
  function RemoveAt(cards: seq<Flashcard>, index: nat): (r: seq<Flashcard>)
    requires index < |cards|
    ensures |r| == |cards| - 1
    ensures forall k :: 0 <= k < index ==> r[k] == cards[k]
    ensures forall k :: index <= k < |r| ==> r[k] == cards[k + 1]
  {
    cards[..index] + cards[index + 1..]
  }

  /** The file after `delete_flashcard(index)`. */
  function AfterDelete(f: StoredFile, index: int): StoredFile {
    if DeleteSucceeds(f, index) then Saved(RemoveAt(Loaded(f), index)) else f
  }

  /** One flashcard file; `contents` is what is on disk. */
  class FlashcardFile {
    var contents: StoredFile

    constructor (initial: StoredFile)
      ensures contents == initial
    {
      contents := initial;
    }

    /** `load_flashcards()` */
    method Load() returns (cards: seq<Flashcard>)
      ensures cards == Loaded(contents)
    {
      match contents
      case Missing =>
        cards := [];
      case Blank =>
        cards := [];
      case Unparsable =>
        cards := [];
      case Saved(stored) =>
        cards := stored;
    }

    /** `save_flashcards(flashcards)`: read the existing list (none for an
        absent or blank file), extend it, and overwrite the file. */
    method Save(flashcards: seq<Flashcard>) returns (ok: bool)
      modifies this
      ensures ok == SaveSucceeds(old(contents))
      ensures contents == AfterSave(old(contents), flashcards)
    {
      var existing: seq<Flashcard> := [];
      match contents {
        case Missing =>
        case Blank =>
        case Unparsable =>
          return false;
        case Saved(stored) =>
          existing := stored;
      }
      existing := existing + flashcards;
      contents := Saved(existing);
      ok := true;
    }

    /** `delete_flashcard(index)`: load, remove the card at a valid index and
        overwrite the file; an invalid index writes nothing. */
    method Delete(index: int) returns (ok: bool)
      modifies this
      ensures ok == DeleteSucceeds(old(contents), index)
      ensures contents == AfterDelete(old(contents), index)
    {
      var cards := Load();
      if 0 <= index < |cards| {
        cards := RemoveAt(cards, index);
        contents := Saved(cards);
        ok := true;
      } else {
        ok := false;
      }
    }
  }

  /** A successful save appends the new cards, in order, after the loaded ones;
      a failed save leaves the file as it was. */
  lemma SaveAppends(f: StoredFile, cards: seq<Flashcard>)
    ensures SaveSucceeds(f) ==> Loaded(AfterSave(f, cards)) == Loaded(f) + cards
    ensures !SaveSucceeds(f) ==> AfterSave(f, cards) == f
  {
  }

  /** Saving twice appends both batches in call order. */
  lemma SaveTwice(f: StoredFile, first: seq<Flashcard>, second: seq<Flashcard>)
    requires SaveSucceeds(f)
    ensures Loaded(AfterSave(AfterSave(f, first), second)) == Loaded(f) + first + second
  {
  }

  /** A valid delete removes exactly the chosen card: the list shrinks by one,
      earlier cards keep their index and later ones move down by one. */
  lemma DeleteRemoves(f: StoredFile, index: int)
    requires DeleteSucceeds(f, index)
    ensures |Loaded(AfterDelete(f, index))| == |Loaded(f)| - 1
    ensures forall k :: 0 <= k < index ==> Loaded(AfterDelete(f, index))[k] == Loaded(f)[k]
    ensures forall k :: index <= k < |Loaded(f)| - 1 ==> Loaded(AfterDelete(f, index))[k] == Loaded(f)[k + 1]
  {
  }

  /** An index outside the loaded list, negative or too large, changes nothing. */
  lemma DeleteOutOfRange(f: StoredFile, index: int)
    requires index < 0 || index >= |Loaded(f)|
    ensures AfterDelete(f, index) == f
  {
  }

  /** Deleting the card just saved at the end restores the loaded list. */
  lemma SaveThenDeleteLast(f: StoredFile, card: Flashcard)
    requires SaveSucceeds(f)
    ensures Loaded(AfterDelete(AfterSave(f, [card]), |Loaded(f)|)) == Loaded(f)
  {
    assert (Loaded(f) + [card])[..|Loaded(f)|] == Loaded(f);
  }

  /** A file that cannot be decoded is never rewritten by either operation. */
  lemma UnparsableIsFrozen(cards: seq<Flashcard>, index: int)
    ensures AfterSave(Unparsable, cards) == Unparsable
    ensures AfterDelete(Unparsable, index) == Unparsable
  {
  }

  /** `save([c1]); save([c2])` on a fresh file, then `load`, gives `[c1, c2]`. */
  method SaveTwiceThenLoad(c1: Flashcard, c2: Flashcard) returns (cards: seq<Flashcard>, ok1: bool, ok2: bool)
    ensures ok1 && ok2
    ensures cards == [c1, c2]
  {
    var file := new FlashcardFile(Missing);
    ok1 := file.Save([c1]);
    ok2 := file.Save([c2]);
    cards := file.Load();
  }
}
