/**
  The offset indexer of `create_index`: one pass over the lines of the PGN corpus that records,
  for every game, the byte offset of the `[Event ` tag opening it (the first tag of the Seven Tag
  Roster, section 8.1.1 of the PGN standard). Lines are taken without their terminators and each
  is assumed to have been ended by a single LF byte.
*/
module Indexer {

  /** Rust's `char::is_whitespace`: the Unicode White_Space property. */
  predicate IsWhitespace(c: char)
  {
    || ('\U{0009}' <= c <= '\U{000D}')
    || c == '\U{0020}'
    || c == '\U{0085}'
    || c == '\U{00A0}'
    || c == '\U{1680}'
    || ('\U{2000}' <= c <= '\U{200A}')
    || c == '\U{2028}'
    || c == '\U{2029}'
    || c == '\U{202F}'
    || c == '\U{205F}'
    || c == '\U{3000}'
  }

  /** `line.trim().is_empty()`: the line holds nothing but whitespace. */
  predicate IsBlank(line: string)
  {
    forall i :: 0 <= i < |line| ==> IsWhitespace(line[i])
  }

  /** `line.starts_with("[Event ")`. */
  predicate IsEventLine(line: string)
  {
    "[Event " <= line
  }

  /** Number of bytes UTF-8 needs for one scalar value. */
  function CharWidth(c: char): (w: nat)
    ensures 1 <= w <= 4
  {
    if c as int < 0x80 then 1
    else if c as int < 0x800 then 2
    else if c as int < 0x1_0000 then 3
    else 4
  }

  /** `String::len`: the UTF-8 byte length of a line. */
  function Utf8Len(s: string): (n: nat)
    ensures n >= |s|
    decreases |s|
  {
    if |s| == 0 then 0 else Utf8Len(s[..|s| - 1]) + CharWidth(s[|s| - 1])
  }

  /** Bytes taken by `lines`, each followed by its LF terminator. */
  function TotalBytes(lines: seq<string>): nat
    decreases |lines|
  {
    if |lines| == 0 then 0 else TotalBytes(lines[..|lines| - 1]) + Utf8Len(lines[|lines| - 1]) + 1
  }

  /** The byte offset at which line `k` starts. */
  function OffsetBefore(lines: seq<string>, k: nat): nat
    requires k <= |lines|
  {
    TotalBytes(lines[..k])
  }

  /** The counter value at which the scan stops: at most `LineCap - 1` lines are examined. */
  const LineCap: nat := 1_000

  /** Number of lines the scan examines before its counter check breaks the loop. */
  function Examined(lines: seq<string>): nat
  {
    if |lines| < LineCap - 1 then |lines| else LineCap - 1
  }

  /** Scan state after some lines: running byte offset, the `in_game` flag and the offsets written so far. */
  datatype ScanState = ScanState(offset: nat, inGame: bool, index: seq<nat>)

  const Initial := ScanState(0, false, [])

  /** One iteration of the scan loop on one line. */
  function Step(st: ScanState, line: string): ScanState
  {
    if IsEventLine(line) && !st.inGame then
      ScanState(st.offset + Utf8Len(line) + 1, true, st.index + [st.offset])
    else if IsBlank(line) then
      ScanState(st.offset + Utf8Len(line) + 1, false, st.index)
    else
      ScanState(st.offset + Utf8Len(line) + 1, st.inGame, st.index)
  }

  /** The scan state after all of `lines` (no line cap). */
  function Scan(lines: seq<string>): ScanState
    decreases |lines|
  {
    if |lines| == 0 then Initial else Step(Scan(lines[..|lines| - 1]), lines[|lines| - 1])
  }

  /** Line `k` opens a game: it is an `[Event ` line read while no game is open. */
  predicate Opens(lines: seq<string>, k: nat)
    requires k < |lines|
  {
    IsEventLine(lines[k]) && !Scan(lines[..k]).inGame
  }

  predicate StrictlyIncreasing(s: seq<nat>)
  {
    forall i, j :: 0 <= i < j < |s| ==> s[i] < s[j]
  }

  lemma AppendIncreasing(s: seq<nat>, x: nat)
    requires StrictlyIncreasing(s)
    requires forall y :: y in s ==> y < x
    ensures StrictlyIncreasing(s + [x])
  {
    forall i, j | 0 <= i < j < |s| + 1
      ensures (s + [x])[i] < (s + [x])[j]
    {
      if j == |s| {
        assert s[i] in s;
      }
    }
  }

  /** Scanning one more line is one more step. */
  lemma ScanSnoc(lines: seq<string>, k: nat)
    requires k < |lines|
    ensures Scan(lines[..k + 1]) == Step(Scan(lines[..k]), lines[k])
    ensures OffsetBefore(lines, k + 1) == OffsetBefore(lines, k) + Utf8Len(lines[k]) + 1
  {
    assert lines[..k + 1][..k] == lines[..k];
  }

  /**
    What the scan computes: the running offset is the byte count of the lines seen, the written
    offsets increase strictly, and an offset is written exactly for the lines that open a game,
    as the start of that line.
  */
  lemma {:induction false} ScanCharacterised(lines: seq<string>)
    ensures Scan(lines).offset == OffsetBefore(lines, |lines|)
    ensures StrictlyIncreasing(Scan(lines).index)
    ensures forall x :: x in Scan(lines).index ==> x < Scan(lines).offset
    ensures forall x :: x in Scan(lines).index <==>
              exists k :: 0 <= k < |lines| && Opens(lines, k) && x == OffsetBefore(lines, k)
    decreases |lines|
  {
    assert lines[..|lines|] == lines;
    if |lines| > 0 {
      var n := |lines| - 1;
      var p := lines[..n];
      ScanCharacterised(p);
      ScanSnoc(lines, n);
      forall k | 0 <= k <= n
        ensures p[..k] == lines[..k]
      {
      }
      assert p[..n] == p;
      if Scan(lines).index != Scan(p).index {
        AppendIncreasing(Scan(p).index, Scan(p).offset);
      }
      forall x
        ensures x in Scan(lines).index <==>
                exists k :: 0 <= k < |lines| && Opens(lines, k) && x == OffsetBefore(lines, k)
      {
        if x in Scan(lines).index {
          if x in Scan(p).index {
            var k :| 0 <= k < |p| && Opens(p, k) && x == OffsetBefore(p, k);
            assert Opens(lines, k) && x == OffsetBefore(lines, k);
          } else {
            assert Opens(lines, n) && x == OffsetBefore(lines, n);
          }
        }
        if exists k :: 0 <= k < |lines| && Opens(lines, k) && x == OffsetBefore(lines, k) {
          var k :| 0 <= k < |lines| && Opens(lines, k) && x == OffsetBefore(lines, k);
          if k < n {
            assert Opens(p, k) && x == OffsetBefore(p, k);
          }
        }
      }
    }
  }

  /** After an `[Event ` line, the game stays open through every following line that is not blank. */
  lemma {:induction false} StaysInGame(lines: seq<string>, k: nat, m: nat)
    requires k < m <= |lines|
    requires IsEventLine(lines[k])
    requires forall j :: k < j < m ==> !IsBlank(lines[j])
    ensures Scan(lines[..m]).inGame
    decreases m
  {
    ScanSnoc(lines, m - 1);
    if m - 1 > k {
      StaysInGame(lines, k, m - 1);
    } else {
      assert !IsBlank(lines[k]) by {
        assert lines[k][0] == '[';
      }
    }
  }

  /** A second `[Event ` line before any blank line writes nothing. */
  lemma DuplicateEventIgnored(lines: seq<string>, k: nat, m: nat)
    requires k < m < |lines|
    requires IsEventLine(lines[k]) && IsEventLine(lines[m])
    requires forall j :: k < j < m ==> !IsBlank(lines[j])
    ensures !Opens(lines, m)
    ensures Scan(lines[..m + 1]).index == Scan(lines[..m]).index
  {
    StaysInGame(lines, k, m);
    ScanSnoc(lines, m);
  }

  /** After a blank line the flag stays down until the next `[Event ` line. */
  lemma {:induction false} StaysOutOfGame(lines: seq<string>, k: nat, m: nat)
    requires k < m <= |lines|
    requires IsBlank(lines[k])
    requires forall j :: k < j < m ==> !IsEventLine(lines[j])
    ensures !Scan(lines[..m]).inGame
    decreases m
  {
    ScanSnoc(lines, m - 1);
    if m - 1 > k {
      StaysOutOfGame(lines, k, m - 1);
    } else {
      if |lines[k]| > 0 {
        assert IsWhitespace(lines[k][0]);
      }
    }
  }

  /** A blank line re-arms the scan: the next `[Event ` line after it opens a game and is written. */
  lemma EventAfterBlankOpens(lines: seq<string>, k: nat, m: nat)
    requires k < m < |lines|
    requires IsBlank(lines[k]) && IsEventLine(lines[m])
    requires forall j :: k < j < m ==> !IsEventLine(lines[j])
    ensures Opens(lines, m)
    ensures Scan(lines[..m + 1]).index == Scan(lines[..m]).index + [OffsetBefore(lines, m)]
  {
    StaysOutOfGame(lines, k, m);
    ScanSnoc(lines, m);
    ScanCharacterised(lines[..m]);
    assert lines[..m][..m] == lines[..m];
  }

  /**
    `create_index`: the scan loop with its line counter. The counter is incremented before the
    check `i >= 1_000`, so at most 999 lines are examined and the rest of the corpus is ignored.
    Returns the offsets written to the index file, in order.
  */
  method CreateIndex(lines: seq<string>) returns (index: seq<nat>)
    ensures index == Scan(lines[..Examined(lines)]).index
    ensures StrictlyIncreasing(index)
    ensures forall x :: x in index <==>
              exists k :: 0 <= k < Examined(lines) && Opens(lines, k) && x == OffsetBefore(lines, k)
  {
    var offset: nat := 0;
    var inGame := false;
    var i := 0;
    var k := 0;
    index := [];
    while k < |lines|
      invariant k <= |lines| && k <= LineCap - 1
      invariant i == k
      invariant ScanState(offset, inGame, index) == Scan(lines[..k])
      decreases |lines| - k
    {
      i := i + 1;
      if i >= LineCap {
        break;
      }
      var line := lines[k];
      ScanSnoc(lines, k);
      if IsEventLine(line) && !inGame {
        index := index + [offset];
        inGame := true;
      } else if IsBlank(line) {
        inGame := false;
      }
      offset := offset + Utf8Len(line) + 1;
      k := k + 1;
    }
    assert k == Examined(lines);
    var e := lines[..k];
    ScanCharacterised(e);
    forall j | 0 <= j < k
      ensures e[..j] == lines[..j] && e[j] == lines[j]
    {
    }
    forall x
      ensures x in index <==> exists j :: 0 <= j < k && Opens(lines, j) && x == OffsetBefore(lines, j)
    {
      if x in index {
        var j :| 0 <= j < |e| && Opens(e, j) && x == OffsetBefore(e, j);
        assert Opens(lines, j) && x == OffsetBefore(lines, j);
      }
      if exists j :: 0 <= j < k && Opens(lines, j) && x == OffsetBefore(lines, j) {
        var j :| 0 <= j < k && Opens(lines, j) && x == OffsetBefore(lines, j);
        assert Opens(e, j) && x == OffsetBefore(e, j);
      }
    }
  }
}
