/** Lines of a set-associative cache, whatever they hold: looking a tag up, replacing a line,
    counting the dirty ones. */
module CacheLines {
  import opened Bits
  import opened Replacement

  /** Valid, dirty and tag bits with the line's data. */
  datatype CacheLine<T> = Line(valid: bool, dirty: bool, tag: nat, data: seq<T>)

  predicate Matches<T>(line: CacheLine<T>, tag: nat) {
    line.valid && line.tag == tag
  }

  /** The first way that holds the tag, or the number of ways. */
  function FirstHit<T>(row: seq<CacheLine<T>>, tag: nat): (w: nat)
    ensures w <= |row|
    ensures w < |row| ==> Matches(row[w], tag)
    ensures forall i :: 0 <= i < w ==> !Matches(row[i], tag)
  {
    if |row| == 0 || Matches(row[0], tag) then 0 else 1 + FirstHit(row[1..], tag)
  }

  ghost predicate UniqueTags<T>(row: seq<CacheLine<T>>) {
    forall i, j :: 0 <= i < j < |row| && row[i].valid && row[j].valid ==> row[i].tag != row[j].tag
  }

  lemma FirstHitAt<T>(row: seq<CacheLine<T>>, i: nat, tag: nat)
    requires i <= |row| && (i < |row| ==> Matches(row[i], tag))
    requires forall j :: 0 <= j < i ==> !Matches(row[j], tag)
    ensures FirstHit(row, tag) == i
  {
    var h := FirstHit(row, tag);
    assert h < |row| ==> Matches(row[h], tag);
    assert i < |row| ==> Matches(row[i], tag);
  }

  lemma FirstHitIs<T>(row: seq<CacheLine<T>>, i: nat, tag: nat)
    requires i < |row| && Matches(row[i], tag) && UniqueTags(row)
    ensures FirstHit(row, tag) == i
  {
    assert Matches(row[FirstHit(row, tag)], tag);
  }

  /** FirstHit sees only which ways match. */
  lemma FirstHitSame<T>(row: seq<CacheLine<T>>, row': seq<CacheLine<T>>, tag: nat)
    requires |row'| == |row|
    requires forall i :: 0 <= i < |row| ==> Matches(row'[i], tag) == Matches(row[i], tag)
    ensures FirstHit(row', tag) == FirstHit(row, tag)
  {
    var h, h' := FirstHit(row, tag), FirstHit(row', tag);
    assert h < |row| ==> Matches(row[h], tag) && Matches(row'[h], tag);
    assert h' < |row| ==> Matches(row'[h'], tag) && Matches(row[h'], tag);
  }

  function SetLine<T>(sets: seq<seq<CacheLine<T>>>, s: nat, w: nat, line: CacheLine<T>): (r: seq<seq<CacheLine<T>>>)
    requires s < |sets| && w < |sets[s]|
    ensures |r| == |sets|
    ensures r == sets[s := sets[s][w := line]]
  {
    sets[s := sets[s][w := line]]
  }

  lemma SetLineTwice<T>(sets: seq<seq<CacheLine<T>>>, s: nat, w: nat, a: CacheLine<T>, b: CacheLine<T>)
    requires s < |sets| && w < |sets[s]|
    ensures SetLine(SetLine(sets, s, w, a), s, w, b) == SetLine(sets, s, w, b)
  {
    assert sets[s][w := a][w := b] == sets[s][w := b];
  }

  /** The tags a set holds, way by way. */
  function Tags<T>(row: seq<CacheLine<T>>): (t: seq<Tagged>)
    ensures |t| == |row|
    ensures forall i :: 0 <= i < |t| ==> t[i] == if row[i].valid then Holds(row[i].tag) else Empty
  {
    seq(|row|, i requires 0 <= i < |row| => if row[i].valid then Holds(row[i].tag) else Empty)
  }

  /** A tag is found exactly if it is among them. */
  lemma FirstHitResident<T>(row: seq<CacheLine<T>>, tag: nat)
    ensures FirstHit(row, tag) < |row| <==> Holds(tag) in Tags(row)
  {
    var h := FirstHit(row, tag);
    if h < |row| {
      assert Tags(row)[h] == Holds(tag);
    }
    if Holds(tag) in Tags(row) {
      var i :| 0 <= i < |row| && Tags(row)[i] == Holds(tag);
      assert Matches(row[i], tag);
    }
  }

  // ---- Dirty lines -------------------------------------------------------------------

  ghost function DirtyInRow<T>(row: seq<CacheLine<T>>): nat {
    if |row| == 0 then 0 else Bit(row[0].dirty) + DirtyInRow(row[1..])
  }

  /** Lines currently dirty. */
  ghost function DirtyLines<T>(sets: seq<seq<CacheLine<T>>>): nat {
    if |sets| == 0 then 0 else DirtyInRow(sets[0]) + DirtyLines(sets[1..])
  }

  lemma {:induction false} RowUpdate<T>(row: seq<CacheLine<T>>, w: nat, line: CacheLine<T>)
    requires w < |row|
    ensures DirtyInRow(row[w := line]) + Bit(row[w].dirty) == DirtyInRow(row) + Bit(line.dirty)
  {
    if w > 0 {
      assert row[w := line][1..] == row[1..][w - 1 := line];
      RowUpdate(row[1..], w - 1, line);
    } else {
      assert row[w := line][1..] == row[1..];
    }
  }

  lemma {:induction false} SetUpdate<T>(sets: seq<seq<CacheLine<T>>>, s: nat, w: nat, line: CacheLine<T>)
    requires s < |sets| && w < |sets[s]|
    ensures DirtyLines(SetLine(sets, s, w, line)) + Bit(sets[s][w].dirty) == DirtyLines(sets) + Bit(line.dirty)
  {
    var sets' := SetLine(sets, s, w, line);
    if s > 0 {
      assert sets'[1..] == SetLine(sets[1..], s - 1, w, line);
      SetUpdate(sets[1..], s - 1, w, line);
    } else {
      assert sets'[1..] == sets[1..];
      RowUpdate(sets[0], w, line);
    }
  }

  lemma {:induction false} CleanRow<T>(row: seq<CacheLine<T>>)
    requires forall i :: 0 <= i < |row| ==> !row[i].dirty
    ensures DirtyInRow(row) == 0
  {
    if |row| > 0 {
      CleanRow(row[1..]);
    }
  }

  lemma {:induction false} CleanSets<T>(sets: seq<seq<CacheLine<T>>>)
    requires forall s, w :: 0 <= s < |sets| && 0 <= w < |sets[s]| ==> !sets[s][w].dirty
    ensures DirtyLines(sets) == 0
  {
    if |sets| > 0 {
      CleanRow(sets[0]);
      CleanSets(sets[1..]);
    }
  }
}
