/**
 * Display-name decompression used by the task listing: compact names such
 * as `RaniKawale` or `InProgress` are turned back into `Rani Kawale` and
 * `In Progress` by the global replacement of `([a-z])([A-Z])` with `"$1 $2"`
 * followed by `trim`.
 */
module Names {
  import opened Strings

  /** A lower-case letter immediately followed by an upper-case one starts at position `i`. */
  predicate BoundaryAt(s: string, i: int)
    requires 0 <= i
  {
    i + 1 < |s| && IsLower(s[i]) && IsUpper(s[i + 1])
  }

  /** No lower-case letter of `s` is immediately followed by an upper-case letter. */
  predicate NoBoundary(s: string) {
    forall i :: 0 <= i < |s| ==> !BoundaryAt(s, i)
  }

  /**
   * The global regular-expression replacement, as the matcher performs it:
   * scan left to right; where `[a-z][A-Z]` matches at the scan position,
   * emit the two letters with a space between them and resume after the
   * match, otherwise copy one character and move on.
   */
  function ReplaceBoundaries(s: string): string
    decreases |s|
  {
    if |s| == 0 then ""
    else if BoundaryAt(s, 0) then [s[0], ' ', s[1]] + ReplaceBoundaries(s[2..])
    else [s[0]] + ReplaceBoundaries(s[1..])
  }

  /**
   * Reference reading of the transform: every character of `s` in order,
   * each followed by one space exactly when it is a lower-case letter whose
   * successor is an upper-case letter.
   */
  function InsertSpaces(s: string): string
    decreases |s|
  {
    if |s| == 0 then ""
    else [s[0]] + (if BoundaryAt(s, 0) then " " else "") + InsertSpaces(s[1..])
  }

  /**
   * Matches of `([a-z])([A-Z])` never overlap and none is lost: the
   * regular-expression scan inserts a space at every boundary and nowhere
   * else.
   */
  lemma {:induction false} ReplaceIsInsert(s: string)
    ensures ReplaceBoundaries(s) == InsertSpaces(s)
    decreases |s|
  {
    if |s| == 0 {
    } else if BoundaryAt(s, 0) {
      var t := s[1..];
      assert !BoundaryAt(t, 0);
      assert t[1..] == s[2..];
      ReplaceIsInsert(s[2..]);
      assert InsertSpaces(t) == [s[1]] + InsertSpaces(s[2..]);
    } else {
      ReplaceIsInsert(s[1..]);
    }
  }

  /** The inserted spaces break every boundary, and no new boundary appears. */
  lemma {:induction false} InsertSpacesNoBoundary(s: string)
    ensures NoBoundary(InsertSpaces(s))
    decreases |s|
  {
    if |s| > 0 {
      InsertSpacesNoBoundary(s[1..]);
      var tail := InsertSpaces(s[1..]);
      var r := InsertSpaces(s);
      assert |s| > 1 ==> |tail| > 0 && tail[0] == s[1];
      if BoundaryAt(s, 0) {
        assert r == [s[0], ' '] + tail;
        forall i | 0 <= i < |r| ensures !BoundaryAt(r, i) {
          if i >= 2 {
            assert r[i] == tail[i - 2];
            assert i + 1 < |r| ==> r[i + 1] == tail[i - 1];
            assert !BoundaryAt(tail, i - 2);
          }
        }
      } else {
        assert r == [s[0]] + tail;
        forall i | 0 <= i < |r| ensures !BoundaryAt(r, i) {
          if i >= 1 {
            assert r[i] == tail[i - 1];
            assert i + 1 < |r| ==> r[i + 1] == tail[i];
            assert !BoundaryAt(tail, i - 1);
          }
        }
      }
    }
  }

  /** Where there is no boundary, the transform inserts nothing. */
  lemma {:induction false} InsertSpacesOfNoBoundary(s: string)
    requires NoBoundary(s)
    ensures InsertSpaces(s) == s
    decreases |s|
  {
    if |s| > 0 {
      assert !BoundaryAt(s, 0);
      var t := s[1..];
      assert NoBoundary(t) by {
        forall i | 0 <= i < |t| ensures !BoundaryAt(t, i) {
          assert !BoundaryAt(s, i + 1);
        }
      }
      InsertSpacesOfNoBoundary(t);
      assert s == [s[0]] + t;
    }
  }

  /** Infixes of a boundary-free string are boundary-free. */
  lemma InfixNoBoundary(s: string, i: int, j: int)
    requires 0 <= i <= j <= |s|
    requires NoBoundary(s)
    ensures NoBoundary(s[i..j])
  {
    var t := s[i..j];
    forall k | 0 <= k < |t| ensures !BoundaryAt(t, k) {
      assert !BoundaryAt(s, i + k);
    }
  }

  /** `trim` never creates a boundary. */
  lemma TrimKeepsNoBoundary(s: string)
    requires NoBoundary(s)
    ensures NoBoundary(Trim(s))
  {
    var i, j :| 0 <= i <= j <= |s| && Trim(s) == s[i..j] && AllSpace(s[..i]) && AllSpace(s[j..]);
    InfixNoBoundary(s, i, j);
  }

  /**
   * `name.replace(/([a-z])([A-Z])/g, "$1 $2").trim()`: the result has no
   * surrounding white space and no lower-case letter directly before an
   * upper-case letter.
   */
  function Decompress(s: string): (r: string)
    ensures Trimmed(r)
    ensures NoBoundary(r)
  {
    ReplaceIsInsert(s);
    InsertSpacesNoBoundary(s);
    TrimKeepsNoBoundary(ReplaceBoundaries(s));
    Trim(ReplaceBoundaries(s))
  }

  /** Decompression is the trimmed space insertion at every boundary. */
  lemma DecompressInsertsAtBoundaries(s: string)
    ensures Decompress(s) == Trim(InsertSpaces(s))
  {
    ReplaceIsInsert(s);
  }

  /** A string with no boundary is only trimmed. */
  lemma DecompressOfNoBoundary(s: string)
    requires NoBoundary(s)
    ensures Decompress(s) == Trim(s)
  {
    ReplaceIsInsert(s);
    InsertSpacesOfNoBoundary(s);
  }

  /** Decompressing an already decompressed name changes nothing. */
  lemma DecompressIdempotent(s: string)
    ensures Decompress(Decompress(s)) == Decompress(s)
  {
    var t := Decompress(s);
    DecompressOfNoBoundary(t);
    TrimmedIsFixed(t);
  }

  /** The space inserted between two adjacent characters, if any. */
  function Gap(x: char, y: char): string {
    if IsLower(x) && IsUpper(y) then " " else ""
  }

  /** The transform acts on a concatenation piecewise, plus the gap at the seam. */
  lemma {:induction false} InsertConcat(a: string, b: string)
    requires |a| > 0 && |b| > 0
    ensures InsertSpaces(a + b) == InsertSpaces(a) + Gap(a[|a| - 1], b[0]) + InsertSpaces(b)
    decreases |a|
  {
    var ab := a + b;
    if |a| == 1 {
      assert ab[1..] == b;
    } else {
      assert ab[1..] == a[1..] + b;
      assert BoundaryAt(ab, 0) == BoundaryAt(a, 0);
      InsertConcat(a[1..], b);
    }
  }

  /** A trimmed name without boundaries, such as one already spaced, is its own decompression. */
  lemma DecompressOfSpaced(s: string)
    requires NoBoundary(s) && Trimmed(s)
    ensures Decompress(s) == s
  {
    DecompressOfNoBoundary(s);
    TrimmedIsFixed(s);
  }

  /**
   * Two boundary-free words meeting at a lower-case/upper-case seam, such
   * as a compact first and last name, are split by exactly one space.
   */
  lemma DecompressSplitsSeam(a: string, b: string)
    requires |a| > 0 && |b| > 0
    requires NoBoundary(a) && NoBoundary(b)
    requires IsLower(a[|a| - 1]) && IsUpper(b[0])
    requires !IsSpace(a[0]) && !IsSpace(b[|b| - 1])
    ensures Decompress(a + b) == a + " " + b
  {
    InsertSpacesOfNoBoundary(a);
    InsertSpacesOfNoBoundary(b);
    InsertConcat(a, b);
    DecompressInsertsAtBoundaries(a + b);
    var r := a + " " + b;
    assert r[0] == a[0] && r[|r| - 1] == b[|b| - 1];
    TrimmedIsFixed(r);
  }
}
