/**
 * Worked examples of display-name decompression, and the fact that the
 * compact status spellings a client sends decompress to members of the
 * status enumeration.
 */
module NameExamples {
  import opened Strings
  import opened Names
  import opened Wrappers
  import opened TaskSchema

  lemma SpacedWord(s: string)
    requires s == "Rani Kawale" || s == "To Do" || s == "In Progress" || s == "Completed" || s == "Blocked"
    ensures NoBoundary(s) && Trimmed(s)
  {
  }

  lemma CompactHalves(s: string, k: nat)
    requires (s == "RaniKawale" && k == 4) || (s == "ToDo" && k == 2) || (s == "InProgress" && k == 2)
    ensures k < |s|
    ensures NoBoundary(s[..k]) && NoBoundary(s[k..])
    ensures IsLower(s[k - 1]) && IsUpper(s[k]) && !IsSpace(s[0]) && !IsSpace(s[|s| - 1])
  {
  }

  /** `RaniKawale` becomes `Rani Kawale`. */
  lemma DecompressCompactPersonName()
    ensures Decompress("RaniKawale") == "Rani Kawale"
  {
    var s := "RaniKawale";
    CompactHalves(s, 4);
    assert s == s[..4] + s[4..];
    assert s[..4] + " " + s[4..] == "Rani Kawale";
    DecompressSplitsSeam(s[..4], s[4..]);
  }

  /** `Rani Kawale` stays as it is. */
  lemma DecompressSpacedPersonName()
    ensures Decompress("Rani Kawale") == "Rani Kawale"
  {
    SpacedWord("Rani Kawale");
    DecompressOfSpaced("Rani Kawale");
  }

  /** How a client writes each status in a query string: the stored spelling without spaces. */
  function CompactStatusName(st: Status): string {
    match st
    case ToDo => "ToDo"
    case InProgress => "InProgress"
    case Completed => "Completed"
    case Blocked => "Blocked"
  }

  /** `ToDo` becomes `To Do`. */
  lemma DecompressToDo()
    ensures Decompress("ToDo") == "To Do"
  {
    var s := "ToDo";
    CompactHalves(s, 2);
    assert s == s[..2] + s[2..];
    assert s[..2] + " " + s[2..] == "To Do";
    DecompressSplitsSeam(s[..2], s[2..]);
  }

  /** `InProgress` becomes `In Progress`. */
  lemma DecompressInProgress()
    ensures Decompress("InProgress") == "In Progress"
  {
    var s := "InProgress";
    CompactHalves(s, 2);
    assert s == s[..2] + s[2..];
    assert s[..2] + " " + s[2..] == "In Progress";
    DecompressSplitsSeam(s[..2], s[2..]);
  }

  /** The stored spelling of a status is its own decompression. */
  lemma DecompressStoredStatus(st: Status)
    ensures Decompress(StatusName(st)) == StatusName(st)
  {
    SpacedWord(StatusName(st));
    DecompressOfSpaced(StatusName(st));
  }

  /**
   * Decompressing the compact spelling of a status yields its stored
   * spelling, which the status enumeration accepts.
   */
  lemma StatusQueryInEnumeration(st: Status)
    ensures Decompress(CompactStatusName(st)) == StatusName(st)
    ensures ParseStatus(Decompress(CompactStatusName(st))) == Some(st)
  {
    match st
    case ToDo => DecompressToDo();
    case InProgress => DecompressInProgress();
    case Completed => DecompressStoredStatus(Completed);
    case Blocked => DecompressStoredStatus(Blocked);
  }
}
