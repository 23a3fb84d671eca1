/**
 * The resume position `next_binlog_file` / `next_binlog_pos` that `main`
 * advances after each submitted event and hands to the decoder when it
 * reopens it for the next window.
 */
module Watermarks {

  /** Python's `<` on `str`: lexicographic order by code point. */
  predicate StrLess(a: string, b: string)
  {
    if a == [] then b != []
    else if b == [] then false
    else a[0] < b[0] || (a[0] == b[0] && StrLess(a[1..], b[1..]))
  }

  lemma {:induction false} StrLessIrreflexive(a: string)
    ensures !StrLess(a, a)
  {
    if a != [] {
      StrLessIrreflexive(a[1..]);
    }
  }

  lemma {:induction false} StrLessTransitive(a: string, b: string, c: string)
    requires StrLess(a, b) && StrLess(b, c)
    ensures StrLess(a, c)
  {
    if a != [] && b != [] && c != [] && a[0] == b[0] && b[0] == c[0] {
      StrLessTransitive(a[1..], b[1..], c[1..]);
    }
  }

  /** Any two different names are ordered one way or the other, and never both. */
  lemma {:induction false} StrLessTotal(a: string, b: string)
    ensures a == b || StrLess(a, b) || StrLess(b, a)
    ensures !(StrLess(a, b) && StrLess(b, a))
  {
    if a != [] && b != [] && a[0] == b[0] {
      StrLessTotal(a[1..], b[1..]);
      if a[1..] == b[1..] {
        assert a == [a[0]] + a[1..] && b == [b[0]] + b[1..];
      }
    }
  }

  /** A resume position: a binlog file name and an offset in it. */
  datatype Mark = Mark(file: string, pos: int)

  /**
   * Observing the decoder at `(file, pos)`: the file moves to a strictly
   * greater name; then the position moves to `pos` when the decoder's file is
   * the tracked one (possibly just updated) and `pos` is greater.
   */
  function Advance(w: Mark, file: string, pos: int): Mark
  {
    var f := if StrLess(w.file, file) then file else w.file;
    Mark(f, if file == f && pos > w.pos then pos else w.pos)
  }

  /** `w` is at or behind `v`: the file is the same or smaller, and the offset is not greater. */
  predicate NotAhead(w: Mark, v: Mark) {
    (w.file == v.file || StrLess(w.file, v.file)) && w.pos <= v.pos
  }

  /**
   * The watermark never moves back: the file only changes to the observed
   * name when that name is strictly greater, and the position only changes to
   * the observed offset when the decoder is in the tracked file and the offset
   * is greater.
   */
  lemma AdvanceMonotone(w: Mark, file: string, pos: int)
    ensures var r := Advance(w, file, pos);
            NotAhead(w, r) &&
            (r.file != w.file <==> StrLess(w.file, file)) &&
            (r.file != w.file ==> r.file == file) &&
            (r.pos != w.pos <==> file == r.file && pos > w.pos) &&
            (r.pos != w.pos ==> r.pos == pos)
  {
    StrLessIrreflexive(w.file);
  }

  /**
   * Moving to a greater file keeps the offset reached in the previous file
   * unless the new offset happens to be greater: the watermark can then name
   * an offset that was never read in its file.
   */
  lemma FileSwitchKeepsOffset(w: Mark, file: string, pos: int)
    requires StrLess(w.file, file) && pos <= w.pos
    ensures Advance(w, file, pos) == Mark(file, w.pos)
  {
  }

  /** Observing a file older than the tracked one changes nothing. */
  lemma OlderFileIgnored(w: Mark, file: string, pos: int)
    requires StrLess(file, w.file)
    ensures Advance(w, file, pos) == w
  {
    StrLessTotal(file, w.file);
    StrLessIrreflexive(file);
  }

  /** Observing the same position twice is the same as observing it once. */
  lemma AdvanceIdempotent(w: Mark, file: string, pos: int)
    ensures Advance(Advance(w, file, pos), file, pos) == Advance(w, file, pos)
  {
    StrLessIrreflexive(file);
    var r := Advance(w, file, pos);
    if !StrLess(w.file, file) && r.file != file {
      StrLessTotal(w.file, file);
      assert !StrLess(r.file, file);
    }
  }

  /** `NotAhead` chains. */
  lemma NotAheadTransitive(u: Mark, v: Mark, w: Mark)
    requires NotAhead(u, v) && NotAhead(v, w)
    ensures NotAhead(u, w)
  {
    if u.file != v.file && v.file != w.file {
      StrLessTransitive(u.file, v.file, w.file);
    }
  }

  /** The two tracked variables, updated in place under their locks. */
  class Watermark {
    var file: string
    var pos: int

    /** `next_binlog_file = binlog_file; next_binlog_pos = binlog_pos`. */
    constructor (file0: string, pos0: int)
      ensures file == file0 && pos == pos0
    {
      file := file0;
      pos := pos0;
    }

    function Current(): Mark
      reads this
    {
      Mark(file, pos)
    }

    /** The two guarded updates made after an event is submitted. */
    method Observe(logFile: string, logPos: int)
      modifies this
      ensures Current() == Advance(old(Current()), logFile, logPos)
      ensures NotAhead(old(Current()), Current())
    {
      AdvanceMonotone(Current(), logFile, logPos);
      if StrLess(file, logFile) {
        file := logFile;
      }
      if logFile == file && logPos > pos {
        pos := logPos;
      }
    }
  }
}
