/**
 * The text input of the two types (imgsmlr.c: read_float, signature_in,
 * pattern_in). Values are read one after the other from a cursor into the
 * input text; before each value the characters ' ', '(', ')' and ',' are
 * skipped, whatever their order, so that "(1, 2, 3)", "1 2 3" and "((1,,2)3"
 * read alike. The number itself is read by the C library's strtof, which is
 * a parameter here: given the text and the position where the number starts,
 * it returns the value and the number of characters it consumed.
 */
module TextInput {
  import opened Types
  import opened Grid

  /** strtof: value read at a position, and the count of characters used for it (0 when there is no number). */
  type Scanner = (seq<char>, nat) -> (real, nat)

  /** A value of an input function, or the "invalid input syntax" error it raises. */
  datatype Outcome<T> = Read(value: T) | InvalidSyntax

  /** One read_float: the number and the cursor after it, or the error. */
  datatype Token = Number(value: real, next: nat) | NoNumber

  /** Several read_float calls: the numbers in order and the cursor after the last, or the first error. */
  datatype Reading = Reading(values: seq<real>, next: nat) | Stopped

  /** The characters read_float skips before a number. */
  predicate IsSeparator(c: char)
  {
    c == ' ' || c == '(' || c == ')' || c == ','
  }

  /** The cursor is at the end of the C string: past the text or on a NUL. */
  predicate AtEnd(s: seq<char>, p: nat)
  {
    p >= |s| || s[p] == '\0'
  }

  /** Where the number starts: the first position from p on that is not a separator. */
  function TokenStart(s: seq<char>, p: nat): (r: nat)
    ensures p <= r
    decreases |s| - p
  {
    if p < |s| && IsSeparator(s[p]) then TokenStart(s, p + 1) else p
  }

  /** read_float skips separators and nothing else: all it passes over are separators, and it stops at the first other character. */
  lemma {:induction false} TokenStartSkips(s: seq<char>, p: nat)
    ensures TokenStart(s, p) > p ==> TokenStart(s, p) <= |s|
    ensures forall k :: p <= k < TokenStart(s, p) ==> IsSeparator(s[k])
    ensures TokenStart(s, p) < |s| ==> !IsSeparator(s[TokenStart(s, p)])
    decreases |s| - p
  {
    if p < |s| && IsSeparator(s[p]) {
      TokenStartSkips(s, p + 1);
    }
  }

  /**
   * read_float from position p, as a value: the number that strtof reads at
   * the token start and the position just after it, or the error.
   */
  function Scan(strtof: Scanner, s: seq<char>, p: nat): (r: Token)
    ensures r.Number? ==> p < r.next
  {
    var start := TokenStart(s, p);
    if AtEnd(s, start) then NoNumber
    else if strtof(s, start).1 == 0 then NoNumber
    else Number(strtof(s, start).0, start + strtof(s, start).1)
  }

  /**
   * Scan fails exactly when nothing but separators is left before the end of
   * the string, or when strtof finds no number where they stop.
   */
  lemma ScanFails(strtof: Scanner, s: seq<char>, p: nat)
    ensures Scan(strtof, s, p) == NoNumber <==>
      AtEnd(s, TokenStart(s, p)) || strtof(s, TokenStart(s, p)).1 == 0
  {
  }

  /** read_float: skips separators, then reads one number with strtof and moves the cursor past it. */
  method ReadFloat(strtof: Scanner, s: seq<char>, p: nat) returns (r: Token)
    ensures r == Scan(strtof, s, p)
  {
    var next := p;
    while next < |s| && IsSeparator(s[next])
      invariant p <= next
      invariant TokenStart(s, next) == TokenStart(s, p)
      decreases |s| - next
    {
      next := next + 1;
    }
    if AtEnd(s, next) {
      return NoNumber;
    }
    var start := next;
    var scanned := strtof(s, start);
    next := start + scanned.1;
    if start == next {
      return NoNumber;
    }
    r := Number(scanned.0, next);
  }

  // ---------------------------------------------------------------- several values in a row

  /** n calls of read_float from position p: the values in order and the final cursor, or the first error. */
  function ReadMany(strtof: Scanner, s: seq<char>, p: nat, n: nat): (r: Reading)
    ensures r.Reading? ==> |r.values| == n
    ensures r.Reading? ==> if n == 0 then r.next == p else r.next > p
  {
    if n == 0 then Reading([], p)
    else
      var before := ReadMany(strtof, s, p, n - 1);
      if before.Stopped? then Stopped
      else
        var last := Scan(strtof, s, before.next);
        if last.NoNumber? then Stopped
        else Reading(before.values + [last.value], last.next)
  }

  /** Once one read fails, reading more fails as well. */
  lemma {:induction false} StoppedStays(strtof: Scanner, s: seq<char>, p: nat, k: nat, n: nat)
    requires ReadMany(strtof, s, p, k) == Stopped && k <= n
    ensures ReadMany(strtof, s, p, n) == Stopped
    decreases n
  {
    if k < n {
      StoppedStays(strtof, s, p, k, n - 1);
    }
  }

  /** The first k of n values are the values of k calls: values are read in order, nothing is read again. */
  lemma {:induction false} ReadManyPrefix(strtof: Scanner, s: seq<char>, p: nat, n: nat, k: nat)
    requires ReadMany(strtof, s, p, n).Reading? && k <= n
    ensures ReadMany(strtof, s, p, k).Reading?
    ensures ReadMany(strtof, s, p, n).values[..k] == ReadMany(strtof, s, p, k).values
    decreases n
  {
    if k < n {
      ReadManyPrefix(strtof, s, p, n - 1, k);
      var before := ReadMany(strtof, s, p, n - 1);
      assert ReadMany(strtof, s, p, n).values == before.values + [Scan(strtof, s, before.next).value];
      assert ReadMany(strtof, s, p, n).values[..k] == before.values[..k];
    }
  }

  /**
   * How many characters strtof examines from a position: the ones it
   * consumes, and any it looks at beyond them before it decides where the
   * number ends ("16e+)" consumes 2 characters but examines 5).
   */
  type Lookahead = (seq<char>, nat) -> nat

  /**
   * strtof decides from what it has examined: it examines at least the
   * characters it consumes, and two texts that agree on the examined
   * characters give the same result.
   */
  ghost predicate ExaminesOnly(strtof: Scanner, examined: Lookahead)
  {
    (forall s: seq<char>, p: nat {:trigger strtof(s, p)} :: strtof(s, p).1 <= examined(s, p)) &&
    forall s: seq<char>, t: seq<char>, p: nat {:trigger strtof(s, p), strtof(t, p)} ::
      p + examined(s, p) <= |s| && p + examined(s, p) <= |t| && s[..p + examined(s, p)] == t[..p + examined(s, p)]
      ==> strtof(t, p) == strtof(s, p)
  }

  /**
   * The end of the text one read_float examines from p: the separators, the
   * character where they stop (the end-of-string test looks at it), and what
   * strtof examines from there.
   */
  function ScanReach(examined: Lookahead, s: seq<char>, p: nat): (r: nat)
    ensures TokenStart(s, p) < r
  {
    var start := TokenStart(s, p);
    if examined(s, start) >= 1 then start + examined(s, start) else start + 1
  }

  /** Texts that agree from p up to the token start have the same token start. */
  lemma {:induction false} TokenStartSame(s: seq<char>, t: seq<char>, p: nat, start: nat)
    requires start == TokenStart(s, p) && start < |s| && start < |t|
    requires forall k :: p <= k <= start ==> t[k] == s[k]
    ensures TokenStart(t, p) == start
    decreases start - p
  {
    if p < start {
      TokenStartSame(s, t, p + 1, start);
    }
  }

  /**
   * One read_float depends only on the text it examines: a text that agrees
   * with s up to ScanReach gives the same number and cursor, or the same
   * error; the number it consumes lies within that text.
   */
  lemma ScanLocal(strtof: Scanner, examined: Lookahead, s: seq<char>, t: seq<char>, p: nat)
    requires ExaminesOnly(strtof, examined)
    requires ScanReach(examined, s, p) <= |s| && ScanReach(examined, s, p) <= |t|
    requires s[..ScanReach(examined, s, p)] == t[..ScanReach(examined, s, p)]
    ensures Scan(strtof, s, p).Number? ==> Scan(strtof, s, p).next <= ScanReach(examined, s, p)
    ensures Scan(strtof, t, p) == Scan(strtof, s, p)
  {
    var e := ScanReach(examined, s, p);
    var start := TokenStart(s, p);
    forall k | p <= k <= start
      ensures t[k] == s[k]
    {
      assert s[..e][k] == t[..e][k];
    }
    TokenStartSame(s, t, p, start);
    if examined(s, start) >= 1 {
      assert s[..start + examined(s, start)] == t[..start + examined(s, start)];
    } else {
      assert s[..start + examined(s, start)] == s[..e][..start];
      assert t[..start + examined(s, start)] == t[..e][..start];
    }
  }

  /** The end of the text n calls of read_float from p examine, up to the first one that fails. */
  function ReachMany(strtof: Scanner, examined: Lookahead, s: seq<char>, p: nat, n: nat): (r: nat)
    ensures p <= r
  {
    if n == 0 then p
    else
      var before := ReadMany(strtof, s, p, n - 1);
      var reach := ReachMany(strtof, examined, s, p, n - 1);
      if before.Stopped? then reach
      else if ScanReach(examined, s, before.next) > reach then ScanReach(examined, s, before.next)
      else reach
  }

  /**
   * The text after what the reads examine is never looked at: any text that
   * agrees with s up to ReachMany reads the same n values, or fails the same
   * way; the values read lie within that text.
   */
  lemma {:induction false} TrailingTextIgnored(strtof: Scanner, examined: Lookahead, s: seq<char>, t: seq<char>, p: nat, n: nat)
    requires ExaminesOnly(strtof, examined)
    requires ReachMany(strtof, examined, s, p, n) <= |s| && ReachMany(strtof, examined, s, p, n) <= |t|
    requires s[..ReachMany(strtof, examined, s, p, n)] == t[..ReachMany(strtof, examined, s, p, n)]
    ensures ReadMany(strtof, s, p, n).Reading? ==> ReadMany(strtof, s, p, n).next <= ReachMany(strtof, examined, s, p, n)
    ensures ReadMany(strtof, t, p, n) == ReadMany(strtof, s, p, n)
  {
    if n > 0 {
      var r := ReachMany(strtof, examined, s, p, n);
      var r' := ReachMany(strtof, examined, s, p, n - 1);
      assert s[..r'] == s[..r][..r'];
      assert t[..r'] == t[..r][..r'];
      TrailingTextIgnored(strtof, examined, s, t, p, n - 1);
      var before := ReadMany(strtof, s, p, n - 1);
      if before.Reading? {
        var e := ScanReach(examined, s, before.next);
        assert s[..e] == s[..r][..e];
        assert t[..e] == t[..r][..e];
        ScanLocal(strtof, examined, s, t, before.next);
      }
    }
  }

  // ---------------------------------------------------------------- signature_in, pattern_in

  /** The values a text reads as, when n of them are read from its start. */
  function Values(strtof: Scanner, s: seq<char>, n: nat): (r: Outcome<seq<real>>)
    ensures r.Read? ==> |r.value| == n
  {
    var reading := ReadMany(strtof, s, 0, n);
    if reading.Stopped? then InvalidSyntax else Read(reading.values)
  }

  /**
   * The input functions accept whatever follows the last value: a text that
   * agrees with s on what the n reads examine reads as s does ("(1,...,16)"
   * and "(1,...,16) garbage" give the same signature).
   */
  lemma ValuesIgnoreTrailing(strtof: Scanner, examined: Lookahead, s: seq<char>, t: seq<char>, n: nat)
    requires ExaminesOnly(strtof, examined)
    requires ReachMany(strtof, examined, s, 0, n) <= |s| <= |t|
    requires t[..|s|] == s
    ensures Values(strtof, t, n) == Values(strtof, s, n)
  {
    var r := ReachMany(strtof, examined, s, 0, n);
    assert s[..r] == t[..|s|][..r];
    TrailingTextIgnored(strtof, examined, s, t, 0, n);
  }

  /** signature_in: sixteen calls of read_float from the start of the text. */
  method SignatureIn(strtof: Scanner, s: seq<char>) returns (r: Outcome<seq<real>>)
    ensures r == Values(strtof, s, SignatureSize)
  {
    var values: seq<real> := [];
    var p: nat := 0;
    var i := 0;
    while i < SignatureSize
      invariant 0 <= i <= SignatureSize
      invariant ReadMany(strtof, s, 0, i) == Reading(values, p)
    {
      var t := ReadFloat(strtof, s, p);
      if t.NoNumber? {
        StoppedStays(strtof, s, 0, i + 1, SignatureSize);
        return InvalidSyntax;
      }
      values, p := values + [t.value], t.next;
      i := i + 1;
    }
    r := Read(values);
  }

  /** The inner loop of pattern_in: the next n calls of read_float, after k values were read. */
  method ReadNext(strtof: Scanner, s: seq<char>, k: nat, ghost values0: seq<real>, p0: nat, n: nat)
    returns (ok: bool, row: seq<real>, p: nat)
    requires ReadMany(strtof, s, 0, k) == Reading(values0, p0)
    ensures ok <==> ReadMany(strtof, s, 0, k + n).Reading?
    ensures ok ==> |row| == n && ReadMany(strtof, s, 0, k + n) == Reading(values0 + row, p)
  {
    row, p := [], p0;
    var c := k;
    while c < k + n
      invariant k <= c <= k + n
      invariant |row| == c - k
      invariant ReadMany(strtof, s, 0, c) == Reading(values0 + row, p)
    {
      var t := ReadFloat(strtof, s, p);
      if t.NoNumber? {
        StoppedStays(strtof, s, 0, c + 1, k + n);
        return false, row, p;
      }
      assert (values0 + row) + [t.value] == values0 + (row + [t.value]);
      row, p := row + [t.value], t.next;
      c := c + 1;
    }
    ok := true;
  }

  /** Stores one row of values into row i of the pattern. */
  method StoreRow(pattern: array2<real>, i: int, row: seq<real>)
    requires IsPattern(pattern) && 0 <= i < PatternSize && |row| == PatternSize
    modifies pattern
    ensures forall b :: 0 <= b < PatternSize ==> pattern[i, b] == row[b]
    ensures forall a, b :: 0 <= a < PatternSize && a != i && 0 <= b < PatternSize ==> pattern[a, b] == old(pattern[a, b])
  {
    var j := 0;
    while j < PatternSize
      invariant 0 <= j <= PatternSize
      invariant forall b :: 0 <= b < j ==> pattern[i, b] == row[b]
      invariant forall a, b :: 0 <= a < PatternSize && a != i && 0 <= b < PatternSize ==> pattern[a, b] == old(pattern[a, b])
    {
      pattern[i, j] := row[j];
      j := j + 1;
    }
  }

  /**
   * pattern_in: 64 x 64 calls of read_float, filling the rows one after the
   * other; on success the pattern holds the values in reading order. A row
   * is stored once its 64 values are read; as any error aborts the whole
   * input, the result is the same as storing each value as it comes.
   */
  method PatternIn(strtof: Scanner, s: seq<char>) returns (ok: bool, pattern: array2<real>)
    ensures fresh(pattern) && IsPattern(pattern)
    ensures ok <==> Values(strtof, s, Cells).Read?
    ensures ok ==> Snap(pattern) == Values(strtof, s, Cells).value
  {
    pattern := new real[PatternSize, PatternSize];
    ghost var values: seq<real> := [];
    var p: nat := 0;
    var i := 0;
    while i < PatternSize
      invariant 0 <= i <= PatternSize
      invariant ReadMany(strtof, s, 0, i * PatternSize) == Reading(values, p)
      invariant forall a, b :: 0 <= a < i && 0 <= b < PatternSize ==> pattern[a, b] == values[a * PatternSize + b]
    {
      var rowOk, row;
      rowOk, row, p := ReadNext(strtof, s, i * PatternSize, values, p, PatternSize);
      if !rowOk {
        StoppedStays(strtof, s, 0, i * PatternSize + PatternSize, Cells);
        return false, pattern;
      }
      StoreRow(pattern, i, row);
      values := values + row;
      i := i + 1;
    }
    ok := true;
    forall a, b | 0 <= a < PatternSize && 0 <= b < PatternSize
      ensures At(Snap(pattern), a, b) == At(values, a, b)
    {
    }
    GridEq(Snap(pattern), values);
  }
}
