/**
 * The alphabet index bar of the all-apps list: its section letters (a
 * Latin and a Hangul table), the lookup of a letter's section, and the
 * indexing flag driven by touches on the bar.
 */
module IndexFastScrollRecyclerSection {
  import opened Common

  /** The Latin table: '#', the first Hangul consonant, then 'A' to 'Z'. */
  const LATIN_ALPHABET: string := "#ㄱABCDEFGHIJKLMNOPQRSTUVWXYZ"
  /** The Hangul table: '#', the fourteen Hangul consonants, then 'Z'. */
  const HANGUL_ALPHABET: string := "#ㄱㄴㄷㄹㅁㅂㅅㅇㅈㅊㅋㅌㅍㅎZ"

  const ACTION_DOWN: int := 0
  const ACTION_UP: int := 1
  const ACTION_MOVE: int := 2

  /** The one-letter sections of a table, in order. */
  function Singles(str: string): (r: seq<string>)
    ensures |r| == |str| && forall i :: 0 <= i < |str| ==> r[i] == [str[i]]
  {
    seq(|str|, i requires 0 <= i < |str| => [str[i]])
  }

  /** The table `changeAlphabet` picks: Latin for a letter 'A' to 'Z', Hangul for anything else. */
  function AlphabetFor(firstLetter: char): string
  {
    if 'A' <= firstLetter <= 'Z' then LATIN_ALPHABET else HANGUL_ALPHABET
  }

  /** The two tables: 28 and 16 sections, both starting "#", "ㄱ"; the Latin one runs 'A' to 'Z' and the Hangul one ends in 'Z'. */
  lemma AlphabetTables()
    ensures |Singles(LATIN_ALPHABET)| == 28 && |Singles(HANGUL_ALPHABET)| == 16
    ensures forall k :: 2 <= k < 28 ==> Singles(LATIN_ALPHABET)[k] == [('A' as int + k - 2) as char]
    ensures Singles(LATIN_ALPHABET)[..2] == Singles(HANGUL_ALPHABET)[..2] == ["#", "ㄱ"]
    ensures Singles(HANGUL_ALPHABET)[15] == "Z"
  {
    assert LATIN_ALPHABET[2..] == seq(26, k requires 0 <= k < 26 => ('A' as int + k) as char);
    assert Singles(LATIN_ALPHABET)[..2] == ["#", "ㄱ"];
    assert Singles(HANGUL_ALPHABET)[..2] == ["#", "ㄱ"];
  }

  /** The first section starting with `c`, or -1. */
  function SelectionByLetter(sections: seq<string>, c: char): (r: int)
    requires forall i :: 0 <= i < |sections| ==> |sections[i]| > 0
    ensures -1 <= r < |sections|
    ensures r == -1 <==> forall i :: 0 <= i < |sections| ==> sections[i][0] != c
    ensures r >= 0 ==> sections[r][0] == c && forall i :: 0 <= i < r ==> sections[i][0] != c
  {
    if |sections| == 0 then -1
    else if sections[0][0] == c then 0
    else
      var r := SelectionByLetter(sections[1..], c);
      assert forall i :: 1 <= i < |sections| ==> sections[i] == sections[1..][i - 1];
      if r == -1 then -1 else r + 1
  }

  /** Every letter of the Latin table finds its own section there. */
  lemma LatinLettersFound(k: nat)
    requires k < 26
    ensures SelectionByLetter(Singles(LATIN_ALPHABET), ('A' as int + k) as char) == k + 2
  {
    AlphabetTables();
    var s := Singles(LATIN_ALPHABET);
    var c := ('A' as int + k) as char;
    forall i | 0 <= i < k + 2
      ensures s[i][0] != c
    {
      if i < 2 {
        assert s[i] == s[..2][i];
      }
    }
    var r := SelectionByLetter(s, c);
    assert s[k + 2][0] == c;
    assert r != -1;
  }

  /** Where the scan of `getSelectionByLetter` stops: the first section that is empty or starts with `c`, or the end. */
  function ScanStop(sections: seq<string>, c: char): (r: nat)
    ensures r <= |sections|
    ensures forall k :: 0 <= k < r ==> |sections[k]| > 0 && sections[k][0] != c
    ensures r < |sections| ==> |sections[r]| == 0 || sections[r][0] == c
  {
    if |sections| == 0 || |sections[0]| == 0 || sections[0][0] == c then 0
    else
      assert forall k :: 1 <= k < |sections| ==> sections[k] == sections[1..][k - 1];
      1 + ScanStop(sections[1..], c)
  }

  /**
   * `getSelectionByLetter` on the bar's table: a null table throws, and so
   * does `charAt(0)` on an empty section reached before a match; otherwise
   * the first section starting with `c`, or -1.
   */
  function LetterLookup(sections: Option<seq<string>>, c: char): Option<int>
  {
    match sections
    case None => None
    case Some(s) =>
      var stop := ScanStop(s, c);
      if stop == |s| then Some(-1)
      else if |s[stop]| == 0 then None
      else Some(stop)
  }

  /** A missing table always throws; a table of non-empty sections never does, and finds SelectionByLetter. */
  lemma LetterLookupAgrees(sections: Option<seq<string>>, c: char)
    ensures sections.None? ==> LetterLookup(sections, c).None?
    ensures sections.Some? && (forall i :: 0 <= i < |sections.value| ==> |sections.value[i]| > 0) ==>
      LetterLookup(sections, c) == Some(SelectionByLetter(sections.value, c))
  {
    if sections.Some? && (forall i :: 0 <= i < |sections.value| ==> |sections.value[i]| > 0) {
      var s := sections.value;
      var stop := ScanStop(s, c);
      var r := SelectionByLetter(s, c);
      if r == -1 {
        assert stop == |s|;
      } else {
        assert stop == r;
      }
    }
  }

  /** The index bar's state. */
  class IndexScroller {
    /** `mSections`, the shown sections; None while it is null. */
    var sections: Option<seq<string>>
    var currentSection: int
    var isIndexing: bool
    /** The `check` runnable is waiting on the handler. */
    var checkPosted: bool

    /**
     * The constructor calls `setAdapter` with the list's adapter: when the
     * adapter is a `SectionIndexer` (`indexer` holds its sections) the bar
     * takes those sections, and otherwise `mSections` stays null.
     */
    constructor (indexer: Option<seq<string>>)
      ensures sections == indexer && currentSection == -1 && !isIndexing && !checkPosted
    {
      sections := indexer;
      currentSection := -1;
      isIndexing := false;
      checkPosted := false;
    }

    /** `changeAlphabet`: one section per letter of the chosen table. */
    method ChangeAlphabet(firstLetter: char)
      modifies this
      ensures sections == Some(Singles(AlphabetFor(firstLetter)))
      ensures currentSection == old(currentSection) && isIndexing == old(isIndexing) && checkPosted == old(checkPosted)
    {
      var str := if firstLetter <= 'Z' && firstLetter >= 'A' then LATIN_ALPHABET else HANGUL_ALPHABET;
      var alphabetFull: seq<string> := [];
      var i := 0;
      while i < |str|
        invariant 0 <= i <= |str| && |alphabetFull| == i
        invariant forall k :: 0 <= k < i ==> alphabetFull[k] == [str[k]]
      {
        alphabetFull := alphabetFull + [[str[i]]];
        i := i + 1;
      }
      assert alphabetFull == Singles(str);
      sections := Some(alphabetFull);
    }

    /** `getSelectionByLetter`: the first section starting with `c`, or -1; None where the source throws. */
    method GetSelectionByLetter(c: char) returns (r: Option<int>)
      ensures r == LetterLookup(sections, c)
    {
      if sections.None? {
        return None;
      }
      var s := sections.value;
      var i := 0;
      while i < |s|
        invariant 0 <= i <= |s|
        invariant forall k :: 0 <= k < i ==> |s[k]| > 0 && s[k][0] != c
      {
        if |s[i]| == 0 {
          assert ScanStop(s, c) == i;
          return None;
        }
        if s[i][0] == c {
          assert ScanStop(s, c) == i;
          return Some(i);
        }
        i := i + 1;
      }
      return Some(-1);
    }

    /** `setSelectionByLetter`: select the letter's section, or none (-1); when the lookup throws nothing changes. */
    method SetSelectionByLetter(c: char) returns (ok: bool)
      modifies this
      ensures ok <==> LetterLookup(sections, c).Some?
      ensures sections == old(sections) && isIndexing == old(isIndexing) && checkPosted == old(checkPosted)
      ensures currentSection == if ok then LetterLookup(sections, c).value else old(currentSection)
    {
      var selection := GetSelectionByLetter(c);
      if selection.None? {
        return false;
      }
      currentSection := selection.value;
      return true;
    }

    /**
     * `onTouchEvent`, with the bar's geometry as inputs: `inBar` says the
     * touch is on the bar and `sectionAtPoint` is the section under it.
     * A touch down on the bar starts indexing, a move while indexing
     * follows the finger, a lift while indexing posts `check`.
     */
    method OnTouchEvent(action: int, inBar: bool, sectionAtPoint: int) returns (handled: bool)
      modifies this
      ensures handled <==> (action == ACTION_DOWN && inBar) || (action == ACTION_MOVE && old(isIndexing))
      ensures isIndexing <==> old(isIndexing) || (action == ACTION_DOWN && inBar)
      ensures currentSection == if handled then sectionAtPoint else old(currentSection)
      ensures checkPosted <==> old(checkPosted) || (action == ACTION_UP && old(isIndexing))
      ensures sections == old(sections)
    {
      if action == ACTION_DOWN {
        if inBar {
          isIndexing := true;
          currentSection := sectionAtPoint;
          return true;
        }
      } else if action == ACTION_MOVE {
        if isIndexing {
          currentSection := sectionAtPoint;
          return true;
        }
      } else if action == ACTION_UP {
        if isIndexing {
          checkPosted := true;
        }
      }
      return false;
    }

    /** The `check` runnable: while the list still scrolls it re-posts itself, else indexing ends. */
    method Check(smoothScrolling: bool)
      requires checkPosted
      modifies this
      ensures smoothScrolling ==> isIndexing == old(isIndexing) && checkPosted
      ensures !smoothScrolling ==> !isIndexing && !checkPosted
      ensures sections == old(sections) && currentSection == old(currentSection)
    {
      if smoothScrolling {
        checkPosted := true;
      } else {
        isIndexing := false;
        checkPosted := false;
      }
    }
  }
}
