/** Note migration: deciding whether a stored note looks encrypted, replacing it by its
    decryption (or a marker when that fails), and summarising a processed batch.

    The entropy heuristic and the decryption itself are not modelled: the first is a boolean
    verdict supplied per message, the second a function returning the decrypted text or
    nothing. */
module Decryptor {
  import opened Common
  import opened JsText

  /** The text stored in place of a note that could not be decrypted. */
  const UnableToDecrypt := "[UNABLE_TO_DECRYPT]"

  /** The prefix of CryptoJS's salted ciphertext ("Salted__" in base64). */
  const CryptoJsPrefix := "U2FsdGVkX1"

  /** `[A-Za-z0-9+/]`. */
  predicate IsBase64Char(c: char) {
    ('A' <= c <= 'Z') || ('a' <= c <= 'z') || ('0' <= c <= '9') || c == '+' || c == '/'
  }

  predicate AllPadding(s: string) {
    forall i :: 0 <= i < |s| ==> s[i] == '='
  }

  /** `/^[A-Za-z0-9+/]+=*$/`: a non-empty run of base64 characters, then only '=' padding. */
  predicate Base64Shaped(s: string)
    decreases |s|
  {
    s != [] && IsBase64Char(s[0]) && (AllPadding(s[1..]) || Base64Shaped(s[1..]))
  }

  /** `s.replace(/\s/g, "")`. */
  function WithoutSpaces(s: string): (r: string)
    ensures forall c :: c in r <==> c in s && !IsSpace(c)
  {
    FilterMember(s, c => !IsSpace(c), ' ');
    forall c ensures c in Filter(s, c => !IsSpace(c)) <==> c in s && !IsSpace(c) {
      FilterMember(s, c => !IsSpace(c), c);
    }
    Filter(s, c => !IsSpace(c))
  }

  /** Every character of a base64-shaped string is a base64 character or padding. */
  lemma {:induction false} Base64ShapedChars(s: string)
    requires Base64Shaped(s)
    ensures forall c :: c in s ==> IsBase64Char(c) || c == '='
    decreases |s|
  {
    if !AllPadding(s[1..]) {
      Base64ShapedChars(s[1..]);
    }
    forall c | c in s ensures IsBase64Char(c) || c == '=' {
      var i :| 0 <= i < |s| && s[i] == c;
      if i > 0 {
        assert s[1..][i - 1] == c;
      }
    }
  }

  /** `isMessageEncrypted`; `entropySuspect` is the verdict of the high-entropy, unreadable
      test for this message. */
  function IsMessageEncrypted(message: string, entropySuspect: bool): (r: bool)
    ensures message == "" ==> !r
    ensures message != "" && StartsWith(message, CryptoJsPrefix) ==> r
    ensures message != "" && entropySuspect ==> r
  {
    if message == "" then false
    else
      (Base64Shaped(WithoutSpaces(message)) && |message| > 20)
      || StartsWith(message, CryptoJsPrefix)
      || entropySuspect
  }

  /** A note holding a character that is neither base64, padding nor whitespace (a comma, a
      full stop, an accented letter) is judged encrypted only by the CryptoJS prefix or the
      entropy test. */
  lemma ProseNeedsOtherEvidence(message: string, entropySuspect: bool, c: char)
    requires c in message && !IsBase64Char(c) && c != '=' && !IsSpace(c)
    ensures IsMessageEncrypted(message, entropySuspect)
            <==> StartsWith(message, CryptoJsPrefix) || entropySuspect
  {
    var t := WithoutSpaces(message);
    assert c in t;
    if Base64Shaped(t) {
      Base64ShapedChars(t);
    }
  }

  /** A long, unbroken base64 string with padding is judged encrypted whatever the entropy. */
  lemma LongBase64Encrypted(message: string, entropySuspect: bool)
    requires |message| > 20 && Base64Shaped(message)
    ensures IsMessageEncrypted(message, entropySuspect)
  {
    forall c | c in message ensures !IsSpace(c) {
      Base64ShapedChars(message);
    }
    NoSpacesKept(message);
  }

  lemma NoSpacesKept(s: string)
    requires forall c :: c in s ==> !IsSpace(c)
    ensures WithoutSpaces(s) == s
  {
    FilterAll(s, c => !IsSpace(c));
  }

  /** The record `processNoteForMigration` resolves to. */
  datatype ProcessedNote = ProcessedNote(
    message: string, wasEncrypted: bool, decryptionSuccessful: bool, originalMessage: string)

  /** `processNoteForMigration`: `entropySuspect` stands for the entropy test and `decrypt`
      for `decryptMessage` with the given key (the decrypted text, or nothing). */
  function ProcessNote(message: string, entropySuspect: string -> bool, decrypt: string -> Option<string>)
    : (r: ProcessedNote)
    ensures r.originalMessage == message
    ensures r.wasEncrypted == IsMessageEncrypted(message, entropySuspect(message))
    ensures !r.wasEncrypted ==> r.message == message && r.decryptionSuccessful
    ensures r.wasEncrypted && Truthy(decrypt(message)) ==>
              r.message == decrypt(message).value && r.decryptionSuccessful
    ensures r.wasEncrypted && !Truthy(decrypt(message)) ==>
              r.message == UnableToDecrypt && !r.decryptionSuccessful
  {
    if !IsMessageEncrypted(message, entropySuspect(message)) then
      ProcessedNote(message, false, true, message)
    else
      var decrypted := decrypt(message);
      if Truthy(decrypted) then ProcessedNote(decrypted.value, true, true, message)
      else ProcessedNote(UnableToDecrypt, true, false, message)
  }

  /** A failed note was an encrypted one, and its text is the marker; a note left as plain
      text keeps its text. */
  lemma FailureOnlyWhenEncrypted(message: string, entropySuspect: string -> bool, decrypt: string -> Option<string>)
    ensures var r := ProcessNote(message, entropySuspect, decrypt);
            (!r.decryptionSuccessful ==> r.wasEncrypted && r.message == UnableToDecrypt)
            && (r.message != r.originalMessage ==> r.wasEncrypted)
  {
  }

  /** An empty note is never decrypted: it migrates unchanged, whatever the decryptor does. */
  lemma EmptyNoteUnchanged(entropySuspect: string -> bool, decrypt: string -> Option<string>)
    ensures ProcessNote("", entropySuspect, decrypt) == ProcessedNote("", false, true, "")
  {
  }

  /** The processed notes of a batch, one per message in order. */
  function ProcessAll(messages: seq<string>, entropySuspect: string -> bool, decrypt: string -> Option<string>)
    : (rs: seq<ProcessedNote>)
    ensures |rs| == |messages|
    ensures forall i :: 0 <= i < |messages| ==> rs[i].originalMessage == messages[i]
  {
    seq(|messages|, i requires 0 <= i < |messages| => ProcessNote(messages[i], entropySuspect, decrypt))
  }

  /** `batchProcessNotesForMigration`: processes the messages one after another, pushing each
      result. */
  method BatchProcess(messages: seq<string>, entropySuspect: string -> bool, decrypt: string -> Option<string>)
    returns (results: seq<ProcessedNote>)
    ensures results == ProcessAll(messages, entropySuspect, decrypt)
  {
    results := [];
    var i := 0;
    while i < |messages|
      invariant 0 <= i <= |messages|
      invariant results == ProcessAll(messages[..i], entropySuspect, decrypt)
    {
      var processed := ProcessNote(messages[i], entropySuspect, decrypt);
      assert ProcessAll(messages[..i + 1], entropySuspect, decrypt)
             == ProcessAll(messages[..i], entropySuspect, decrypt) + [processed];
      results := results + [processed];
      i := i + 1;
    }
    assert messages[..i] == messages;
  }

  /** The summary `getDecryptionStats` returns. */
  datatype DecryptionStats = DecryptionStats(
    total: int, encrypted: int, decrypted: int, failed: int, successRate: real)

  predicate WasEncrypted(n: ProcessedNote) { n.wasEncrypted }
  predicate Decrypted(n: ProcessedNote) { n.wasEncrypted && n.decryptionSuccessful }

  /** `getDecryptionStats`; the success rate is an exact percentage. */
  function GetDecryptionStats(notes: seq<ProcessedNote>): (s: DecryptionStats)
    ensures s.total == |notes|
    ensures s.encrypted == CountWhere(notes, WasEncrypted) && s.decrypted == CountWhere(notes, Decrypted)
    ensures s.encrypted > 0 ==> s.successRate == s.decrypted as real / s.encrypted as real * 100.0
    ensures 0 <= s.decrypted <= s.encrypted <= s.total
    ensures s.failed == s.encrypted - s.decrypted && s.failed >= 0
    ensures s.encrypted == 0 ==> s.successRate == 100.0
    ensures 0.0 <= s.successRate <= 100.0
  {
    var encrypted := CountWhere(notes, WasEncrypted);
    var decrypted := CountWhere(notes, Decrypted);
    CountImplied(notes, Decrypted, WasEncrypted);
    CountIsFilterLength(notes, WasEncrypted);
    var rate := if encrypted > 0 then (decrypted as real / encrypted as real) * 100.0 else 100.0;
    assert encrypted > 0 ==> decrypted as real / encrypted as real <= 1.0;
    DecryptionStats(|notes|, encrypted, decrypted, encrypted - decrypted, rate)
  }

  /** Counting a stronger condition gives no more than counting a weaker one. */
  lemma {:induction false} CountImplied<T>(s: seq<T>, p: T -> bool, q: T -> bool)
    requires forall x :: p(x) ==> q(x)
    ensures CountWhere(s, p) <= CountWhere(s, q)
  {
    if s != [] {
      CountImplied(s[1..], p, q);
    }
  }

  /** Among processed notes, the encrypted ones split into those decrypted and those that
      failed. */
  lemma {:induction false} EncryptedSplit(notes: seq<ProcessedNote>)
    requires forall n :: n in notes ==> n.decryptionSuccessful || n.wasEncrypted
    ensures CountWhere(notes, WasEncrypted)
            == CountWhere(notes, Decrypted) + CountWhere(notes, (n: ProcessedNote) => !n.decryptionSuccessful)
  {
    if notes != [] {
      assert notes[0] in notes;
      forall n | n in notes[1..] ensures n.decryptionSuccessful || n.wasEncrypted {
        assert n in notes;
      }
      EncryptedSplit(notes[1..]);
    }
  }

  /** The statistics of a processed batch count its messages, and the failures are exactly the
      messages replaced by the marker because decryption failed. */
  lemma BatchStats(messages: seq<string>, entropySuspect: string -> bool, decrypt: string -> Option<string>)
    ensures var rs := ProcessAll(messages, entropySuspect, decrypt);
            var s := GetDecryptionStats(rs);
            s.total == |messages|
            && s.failed == CountWhere(rs, (n: ProcessedNote) => !n.decryptionSuccessful)
  {
    var rs := ProcessAll(messages, entropySuspect, decrypt);
    forall n | n in rs ensures n.decryptionSuccessful || n.wasEncrypted {
      var i :| 0 <= i < |rs| && rs[i] == n;
      FailureOnlyWhenEncrypted(messages[i], entropySuspect, decrypt);
    }
    EncryptedSplit(rs);
  }
}
