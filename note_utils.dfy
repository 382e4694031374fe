/** Note helpers: content predicates and counts, conversion between database notes and editor
    items, word counting, truncation, previews and energy labels. */
module NoteUtils {
  import opened Common
  import opened JsText
  import opened Models

  /** A note as the editor holds it: the row's fields plus the editing flags. */
  datatype NoteItem = NoteItem(
    id: Option<string>, timesliceId: Option<string>, userId: Option<string>, message: Option<string>,
    isNew: bool, isSaving: bool, hasError: bool, isPinned: bool)

  /** `isValidNote` (also `hasNoteContent`): the trimmed message is not empty. */
  predicate HasNoteContent(note: NoteItem) {
    note.message.Some? && Trim(note.message.value) != ""
  }

  /** A note has content exactly when its message holds a character other than white space. */
  lemma HasContentIffNotBlank(note: NoteItem)
    ensures HasNoteContent(note) <==> note.message.Some? && !AllSpace(note.message.value)
  {
    if note.message.Some? {
      TrimEmptyIffAllSpace(note.message.value);
    }
  }

  /** `getNotesWithContent`. */
  function GetNotesWithContent(notes: seq<NoteItem>): (r: seq<NoteItem>)
    ensures |r| <= |notes|
    ensures forall n :: n in r <==> n in notes && HasNoteContent(n)
  {
    FilterMembers(notes);
    Filter(notes, HasNoteContent)
  }

  lemma FilterMembers(notes: seq<NoteItem>)
    ensures forall n :: n in Filter(notes, HasNoteContent) <==> n in notes && HasNoteContent(n)
  {
    forall n ensures n in Filter(notes, HasNoteContent) <==> n in notes && HasNoteContent(n) {
      FilterMember(notes, HasNoteContent, n);
    }
  }

  /** `countNotesWithContent`. */
  function CountNotesWithContent(notes: seq<NoteItem>): (r: nat)
    ensures r <= |notes|
    ensures r == CountWhere(notes, HasNoteContent)
  {
    CountIsFilterLength(notes, HasNoteContent);
    |GetNotesWithContent(notes)|
  }

  /** `hasAnyNoteContent`. */
  predicate HasAnyNoteContent(notes: seq<NoteItem>) {
    exists i :: 0 <= i < |notes| && HasNoteContent(notes[i])
  }

  /** Some note has content exactly when the count of notes with content is positive. */
  lemma AnyContentIffCountPositive(notes: seq<NoteItem>)
    ensures HasAnyNoteContent(notes) <==> CountNotesWithContent(notes) > 0
  {
    CountIsFilterLength(notes, HasNoteContent);
    if HasAnyNoteContent(notes) {
      var i :| 0 <= i < |notes| && HasNoteContent(notes[i]);
      assert notes[i] in notes;
    }
  }

  /** `isNoteBeingEdited`. */
  predicate IsNoteBeingEdited(note: NoteItem) {
    note.isNew && HasNoteContent(note)
  }

  /** `hasUnsavedChanges`. */
  predicate HasUnsavedChanges(notes: seq<NoteItem>) {
    exists i :: 0 <= i < |notes| && IsNoteBeingEdited(notes[i])
  }

  /** Unsaved changes imply content, and a list of saved notes has none. */
  lemma UnsavedChangesNeedNewContent(notes: seq<NoteItem>)
    ensures HasUnsavedChanges(notes) ==> HasAnyNoteContent(notes)
    ensures (forall i :: 0 <= i < |notes| ==> !notes[i].isNew) ==> !HasUnsavedChanges(notes)
  {
  }

  /** `createEmptyNote`. */
  function CreateEmptyNote(): (r: NoteItem)
    ensures r.isNew && r.message == Some("") && !HasNoteContent(r)
    ensures r.id.None? && r.timesliceId.None? && r.userId.None?
    ensures !r.isSaving && !r.hasError && !r.isPinned
  {
    NoteItem(None, None, None, Some(""), true, false, false, false)
  }

  /** `noteToNoteItem`: a saved note with a non-null message. */
  function NoteToNoteItem(note: Note): (r: NoteItem)
    ensures !r.isNew && !r.isSaving && !r.hasError && !r.isPinned
    ensures r.id == note.id && r.timesliceId == note.timesliceId && r.userId == note.userId
    ensures r.message == Some(note.message.GetOr(""))
  {
    var message := if note.message.Some? && note.message.value != "" then note.message.value else "";
    NoteItem(note.id, note.timesliceId, note.userId, Some(message), false, false, false, false)
  }

  /** `filter(Boolean)` on a list of notes: the notes that are present, in order. */
  function PresentNotes(notes: seq<Option<Note>>): (r: seq<Note>)
    ensures |r| <= |notes|
    ensures forall n :: n in r <==> Some(n) in notes
  {
    if notes == [] then []
    else
      assert notes == [notes[0]] + notes[1..];
      (if notes[0].Some? then [notes[0].value] else []) + PresentNotes(notes[1..])
  }

  /** `notesToNoteItems`: missing entries are dropped, the rest converted in order. */
  function NotesToNoteItems(notes: seq<Option<Note>>): (r: seq<NoteItem>)
    ensures |r| == |PresentNotes(notes)|
    ensures forall i :: 0 <= i < |r| ==> r[i] == NoteToNoteItem(PresentNotes(notes)[i])
    ensures forall i :: 0 <= i < |r| ==> !r[i].isNew && r[i].message.Some?
  {
    if notes == [] then []
    else (if notes[0].Some? then [NoteToNoteItem(notes[0].value)] else []) + NotesToNoteItems(notes[1..])
  }

  /** `s.split(/\s+/)`: every run of white space separates two parts. */
  function SpaceSplit(s: string): (r: seq<string>)
    ensures |r| >= 1
  {
    if s == [] then [""]
    else
      var rest := SpaceSplit(s[1..]);
      if IsSpace(s[0]) then (if |s| > 1 && IsSpace(s[1]) then rest else [""] + rest)
      else [[s[0]] + rest[0]] + rest[1..]
  }

  /** The number of words of `s`: positions holding a non-space character that follows white
      space or the start (`prevSpace`). */
  function WordStarts(s: string, prevSpace: bool): nat {
    if s == [] then 0
    else (if !IsSpace(s[0]) && prevSpace then 1 else 0) + WordStarts(s[1..], IsSpace(s[0]))
  }

  /** Splitting on white-space runs and dropping empty parts leaves exactly one part per word. */
  lemma {:induction false} SpaceSplitCountsWords(s: string)
    ensures |Filter(SpaceSplit(s), NonEmpty)| == WordStarts(s, true)
    ensures SpaceSplit(s)[0] == "" <==> s == [] || IsSpace(s[0])
  {
    if s != [] {
      var rest := SpaceSplit(s[1..]);
      SpaceSplitCountsWords(s[1..]);
      assert Filter(rest, NonEmpty) == (if rest[0] != "" then [rest[0]] else []) + Filter(rest[1..], NonEmpty) by {
        assert rest == [rest[0]] + rest[1..];
      }
      if IsSpace(s[0]) {
        if !(|s| > 1 && IsSpace(s[1])) {
          assert Filter([""] + rest, NonEmpty) == Filter(rest, NonEmpty) by {
            assert ([""] + rest)[1..] == rest;
          }
        }
      } else {
        var first := [s[0]] + rest[0];
        assert Filter([first] + rest[1..], NonEmpty) == [first] + Filter(rest[1..], NonEmpty) by {
          assert ([first] + rest[1..])[1..] == rest[1..];
        }
      }
    }
  }

  function NonEmpty(s: string): bool { s != "" }

  /** `getNoteWordCount`: the number of white-space separated words of the trimmed message. */
  function GetNoteWordCount(note: NoteItem): (r: nat)
    ensures note.message.None? ==> r == 0
    ensures note.message.Some? ==> r == WordStarts(Trim(note.message.value), true)
  {
    match note.message
    case None => 0
    case Some(m) =>
      SpaceSplitCountsWords(Trim(m));
      |Filter(SpaceSplit(Trim(m)), NonEmpty)|
  }

  /** `getNoteCharCount`. */
  function GetNoteCharCount(note: NoteItem): (r: nat)
    ensures note.message.Some? ==> r == |note.message.value|
    ensures note.message.None? ==> r == 0
  {
    if note.message.Some? then |note.message.value| else 0
  }

  /** `message.substring(0, maxLength - 3) + "..."` when the message is too long. */
  function TruncateNoteMessage(message: string, maxLength: int): (r: string)
    ensures |message| <= maxLength ==> r == message
    ensures |message| > maxLength ==>
              var keep := if maxLength < 3 then 0 else maxLength - 3;
              r == message[..keep] + "..."
    ensures |message| > maxLength && maxLength >= 3 ==> |r| == maxLength
  {
    if |message| <= maxLength then message
    else
      var keep := if maxLength - 3 < 0 then 0 else maxLength - 3;
      message[..keep] + "..."
  }

  /** `s.replace(/\n+/g, " ")`: each run of line feeds becomes one space. */
  function CollapseNewlines(s: string): (r: string)
    ensures '\n' !in r
    ensures |r| <= |s|
    decreases |s|
  {
    if s == [] then []
    else if s[0] == '\n' then
      var rest := DropNewlines(s);
      [' '] + CollapseNewlines(rest)
    else [s[0]] + CollapseNewlines(s[1..])
  }

  /** `s` without its leading run of line feeds. */
  function DropNewlines(s: string): (r: string)
    ensures |r| <= |s| && (s != [] && s[0] == '\n' ==> |r| < |s|)
    ensures r == [] || r[0] != '\n'
  {
    if s != [] && s[0] == '\n' then DropNewlines(s[1..]) else s
  }

  /** `s` without each line feed that another line feed follows, so that every run of line
      feeds is cut down to its last one. */
  function SqueezeNewlines(s: string): (r: string)
    ensures |r| <= |s|
  {
    if |s| <= 1 then s
    else if s[0] == '\n' && s[1] == '\n' then SqueezeNewlines(s[1..])
    else [s[0]] + SqueezeNewlines(s[1..])
  }

  /** Every line feed replaced by a space. */
  function NewlinesToSpaces(s: string): (r: string)
    ensures |r| == |s|
    ensures forall i :: 0 <= i < |s| ==> r[i] == (if s[i] == '\n' then ' ' else s[i])
  {
    seq(|s|, i requires 0 <= i < |s| => if s[i] == '\n' then ' ' else s[i])
  }

  /** Collapsing is squeezing each run of line feeds to one and then turning that one into a
      space: every other character is kept, in order. */
  lemma {:induction false} CollapseIsSqueezeThenSpace(s: string)
    ensures CollapseNewlines(s) == NewlinesToSpaces(SqueezeNewlines(s))
    decreases |s|
  {
    if s == [] {
    } else if s[0] == '\n' && |s| > 1 && s[1] == '\n' {
      CollapseIsSqueezeThenSpace(s[1..]);
      assert DropNewlines(s) == DropNewlines(s[1..]);
    } else {
      CollapseIsSqueezeThenSpace(s[1..]);
      if s[0] == '\n' {
        assert DropNewlines(s) == s[1..];
      }
      var t := SqueezeNewlines(s[1..]);
      assert |s| == 1 ==> SqueezeNewlines(s) == [s[0]] + t;
      assert NewlinesToSpaces([s[0]] + t) == NewlinesToSpaces([s[0]]) + NewlinesToSpaces(t);
    }
  }

  /** Text without line feeds is left as it is. */
  lemma {:induction false} CollapseNoNewlines(s: string)
    requires '\n' !in s
    ensures CollapseNewlines(s) == s
  {
    if s != [] {
      CollapseNoNewlines(s[1..]);
    }
  }

  /** `formatNotePreview`. `maxLength` is `None` when not given; 0 also disables truncation. */
  function FormatNotePreview(note: NoteItem, maxLength: Option<int>): (r: string)
    ensures note.message.None? || AllSpace(note.message.value) ==> r == "Empty note"
    ensures note.message.Some? && !AllSpace(note.message.value) ==>
              var single := CollapseNewlines(Trim(note.message.value));
              r == (if maxLength.Some? && maxLength.value != 0 then TruncateNoteMessage(single, maxLength.value)
                    else single)
  {
    var content := if note.message.Some? then Trim(note.message.value) else "";
    assert note.message.Some? ==> (content == "" <==> AllSpace(note.message.value)) by {
      if note.message.Some? { TrimEmptyIffAllSpace(note.message.value); }
    }
    if content == "" then "Empty note"
    else
      var singleLine := CollapseNewlines(content);
      if maxLength.Some? && maxLength.value != 0 then TruncateNoteMessage(singleLine, maxLength.value)
      else singleLine
  }

  /** `isValidEnergyLevel`: an integer from 0 to 5. */
  predicate IsValidEnergyLevel(energy: real) {
    energy == energy.Floor as real && 0.0 <= energy <= 5.0
  }

  const EnergyLabels: seq<string> := ["", "Very Low", "Low", "Medium", "High", "Very High"]

  /** `formatEnergyLevel`. */
  function FormatEnergyLevel(energy: real): (r: string)
    ensures !IsValidEnergyLevel(energy) || energy == 0.0 ==> r == "No energy set"
    ensures IsValidEnergyLevel(energy) && energy != 0.0 ==> r == EnergyLabels[energy.Floor]
    ensures r != "" && r != "Unknown"
  {
    if !IsValidEnergyLevel(energy) || energy == 0.0 then "No energy set"
    else
      var name := EnergyLabels[energy.Floor];
      if name != "" then name else "Unknown"
  }
}
