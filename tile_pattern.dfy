/**
 * The two tile-name patterns of the controllers, matched the way
 * `re.search` matches them: at the leftmost position where the whole
 * pattern fits, anywhere inside the name.
 *
 *  - `(\d+)_img_(\d)_of_(\d).png` (`controller.py`): a run of digits, the
 *    job key, then `_img_`, ONE digit, `_of_`, ONE digit, any character but
 *    a newline (the `.` is not escaped) and `png`;
 *  - `img_\d_of_(\d).png` (`kubernetes/controller.py`): the same without
 *    the key, capturing only the total.
 *
 * `\d` is read as an ASCII digit.
 */
module TilePattern {
  import opened Wrappers
  import opened Decimal

  /** The text `t` occurs in `s` at position `i`. */
  predicate TextAt(s: string, i: nat, t: string) {
    i + |t| <= |s| && forall k :: 0 <= k < |t| ==> s[i + k] == t[k]
  }

  /** The end of the run of digits that starts at `i`. */
  function RunEnd(s: string, i: nat): (p: nat)
    requires i <= |s|
    ensures i <= p <= |s|
    ensures forall j :: i <= j < p ==> IsDigit(s[j])
    ensures p < |s| ==> !IsDigit(s[p])
    decreases |s| - i
  {
    if i < |s| && IsDigit(s[i]) then RunEnd(s, i + 1) else i
  }

  /**
   * The tail of the pattern after the key, `_img_(\d)_of_(\d).png`, matches
   * at `p`.
   */
  predicate TailAt(s: string, p: nat) {
    p + 15 <= |s|
    && TextAt(s, p, "_img_") && IsDigit(s[p + 5])
    && TextAt(s, p + 6, "_of_") && IsDigit(s[p + 10])
    && s[p + 11] != '\n' && TextAt(s, p + 12, "png")
  }

  /**
   * `(\d+)_img_(\d)_of_(\d).png` matches at `i`. Since `_` is not a digit,
   * `\d+` can only end where the run of digits ends, whatever backtracking
   * tries.
   */
  predicate MatchAt(s: string, i: nat) {
    i < |s| && IsDigit(s[i]) && TailAt(s, RunEnd(s, i))
  }

  /** The groups of a match: the job key, the ordinal and the total. */
  datatype Groups = Groups(key: nat, ordinal: nat, total: nat)

  function GroupsAt(s: string, i: nat): (g: Groups)
    requires MatchAt(s, i)
    ensures g.ordinal < 10 && g.total < 10
  {
    var p := RunEnd(s, i);
    Groups(ParseDigits(s[i..p]), DigitValue(s[p + 5]), DigitValue(s[p + 10]))
  }

  /** The leftmost position in `[i, n)` where `holds` is true: how `re.search` picks its match. */
  function First(holds: nat -> bool, i: nat, n: nat): (r: Option<nat>)
    requires i <= n
    ensures r.Some? ==> i <= r.value < n && holds(r.value)
    decreases n - i
  {
    if i == n then None
    else if holds(i) then Some(i)
    else First(holds, i + 1, n)
  }

  /** The scan finds a position exactly when there is one, and it finds the leftmost one. */
  lemma {:induction false} FirstLeftmost(holds: nat -> bool, i: nat, n: nat)
    requires i <= n
    ensures First(holds, i, n).None? <==> forall j :: i <= j < n ==> !holds(j)
    ensures First(holds, i, n).Some? ==> forall j :: i <= j < First(holds, i, n).value ==> !holds(j)
    decreases n - i
  {
    if i < n && !holds(i) {
      FirstLeftmost(holds, i + 1, n);
    }
  }

  function Matches(s: string): nat -> bool {
    (j: nat) => MatchAt(s, j)
  }

  /** `re.search(match_str, s)`: the groups of the leftmost match, or `None`. */
  function Search(s: string): Option<Groups> {
    match First(Matches(s), 0, |s|)
    case None => None
    case Some(i) => Some(GroupsAt(s, i))
  }

  /**
   * `re.search` answers exactly when the pattern matches somewhere, and
   * with the groups of the leftmost match.
   */
  lemma SearchSpec(s: string)
    ensures Search(s).None? <==> forall j :: 0 <= j < |s| ==> !MatchAt(s, j)
    ensures Search(s).Some? ==>
      exists i :: 0 <= i < |s| && MatchAt(s, i) && Search(s) == Some(GroupsAt(s, i))
        && forall j :: 0 <= j < i ==> !MatchAt(s, j)
  {
    var holds := Matches(s);
    FirstLeftmost(holds, 0, |s|);
    forall j: nat ensures holds(j) == MatchAt(s, j) {
    }
    if First(holds, 0, |s|).Some? {
      var i := First(holds, 0, |s|).value;
      assert MatchAt(s, i) && Search(s) == Some(GroupsAt(s, i));
    }
  }

  /** The groups `re.search` reports are those of a match with no match to its left. */
  lemma SearchAt(s: string, i: nat)
    requires MatchAt(s, i) && forall j :: 0 <= j < i ==> !MatchAt(s, j)
    ensures Search(s) == Some(GroupsAt(s, i))
  {
    SearchSpec(s);
  }

  /** `img_\d_of_(\d).png` matches at `i`. */
  predicate KubeMatchAt(s: string, i: nat) {
    i + 14 <= |s|
    && TextAt(s, i, "img_") && IsDigit(s[i + 4])
    && TextAt(s, i + 5, "_of_") && IsDigit(s[i + 9])
    && s[i + 10] != '\n' && TextAt(s, i + 11, "png")
  }

  function KubeMatches(s: string): nat -> bool {
    (j: nat) => KubeMatchAt(s, j)
  }

  /** `re.search(r'img_\d_of_(\d).png', s)`: the total of the leftmost match, or `None`. */
  function KubeSearch(s: string): (r: Option<nat>)
    ensures r.Some? ==> r.value < 10
  {
    match First(KubeMatches(s), 0, |s|)
    case None => None
    case Some(i) => Some(DigitValue(s[i + 9]))
  }

  /** The Kubernetes pattern answers exactly when it matches somewhere, with the leftmost total. */
  lemma KubeSearchSpec(s: string)
    ensures KubeSearch(s).None? <==> forall j :: 0 <= j < |s| ==> !KubeMatchAt(s, j)
    ensures KubeSearch(s).Some? ==>
      exists i :: 0 <= i < |s| && KubeMatchAt(s, i) && KubeSearch(s) == Some(DigitValue(s[i + 9]))
        && forall j :: 0 <= j < i ==> !KubeMatchAt(s, j)
  {
    var holds := KubeMatches(s);
    FirstLeftmost(holds, 0, |s|);
    forall j: nat ensures holds(j) == KubeMatchAt(s, j) {
    }
    if First(holds, 0, |s|).Some? {
      var i := First(holds, 0, |s|).value;
      assert KubeMatchAt(s, i) && KubeSearch(s) == Some(DigitValue(s[i + 9]));
    }
  }

  /**
   * Wherever `(\d+)_img_(\d)_of_(\d).png` matches, `img_\d_of_(\d).png`
   * matches one past the end of the key's digits, with the same total.
   */
  lemma KubeMatchInside(s: string, i: nat)
    requires MatchAt(s, i)
    ensures KubeMatchAt(s, RunEnd(s, i) + 1)
    ensures DigitValue(s[RunEnd(s, i) + 1 + 9]) == GroupsAt(s, i).total
  {
    var p := RunEnd(s, i);
    assert forall k :: 0 <= k < 4 ==> "img_"[k] == "_img_"[k + 1];
  }

  /** A name the first pattern finds is also found by the second. */
  lemma SearchThenKubeSearch(s: string)
    requires Search(s).Some?
    ensures KubeSearch(s).Some?
  {
    SearchSpec(s);
    KubeSearchSpec(s);
    var i :| 0 <= i < |s| && MatchAt(s, i) && Search(s) == Some(GroupsAt(s, i));
    KubeMatchInside(s, i);
  }
  /**
   * A directory whose own name looks like a tile changes what the keyed
   * pattern reads: the `.` before `png` also matches the `/` of the joined
   * path, so the joined path reads key 5 where the bare name reads key 7.
   */
  lemma JoinedPathReadsDirectoryKey()
    ensures Search("png7_img_1_of_2.png") == Some(Groups(7, 1, 2))
    ensures Search("x/5_img_1_of_2/png7_img_1_of_2.png") == Some(Groups(5, 1, 2))
  {
    BareKey();
    JoinedKey();
  }

  lemma BareKeyFirst()
    ensures First(Matches("png7_img_1_of_2.png"), 0, |"png7_img_1_of_2.png"|) == Some(3)
  {
    var s := "png7_img_1_of_2.png";
    BareKeyMatch();
    assert First(Matches(s), 3, |s|) == Some(3);
    assert First(Matches(s), 2, |s|) == Some(3);
    assert First(Matches(s), 1, |s|) == Some(3);
    assert First(Matches(s), 0, |s|) == Some(3);
  }

  lemma BareKey()
    ensures Search("png7_img_1_of_2.png") == Some(Groups(7, 1, 2))
  {
    BareKeyFirst();
    BareKeyGroups();
  }

  lemma BareKeyMatch()
    ensures !MatchAt("png7_img_1_of_2.png", 0)
    ensures !MatchAt("png7_img_1_of_2.png", 1)
    ensures !MatchAt("png7_img_1_of_2.png", 2)
    ensures MatchAt("png7_img_1_of_2.png", 3)
  {
    var s := "png7_img_1_of_2.png";
    assert !IsDigit(s[0]) && !IsDigit(s[1]) && !IsDigit(s[2]);
    BareKeyRun();
    assert TailAt(s, 4);
  }

  lemma BareKeyRun()
    ensures RunEnd("png7_img_1_of_2.png", 3) == 4
  {
    var s := "png7_img_1_of_2.png";
    assert IsDigit(s[3]) && !IsDigit(s[4]);
    assert RunEnd(s, 4) == 4;
  }

  lemma BareKeyGroups()
    requires MatchAt("png7_img_1_of_2.png", 3)
    ensures GroupsAt("png7_img_1_of_2.png", 3) == Groups(7, 1, 2)
  {
    var s := "png7_img_1_of_2.png";
    BareKeyRun();
    assert s[3..4] == [s[3]];
  }

  lemma JoinedKeyFirst()
    ensures First(Matches("x/5_img_1_of_2/png7_img_1_of_2.png"), 0, |"x/5_img_1_of_2/png7_img_1_of_2.png"|) == Some(2)
  {
    var s := "x/5_img_1_of_2/png7_img_1_of_2.png";
    JoinedKeyMatch();
    assert First(Matches(s), 2, |s|) == Some(2);
    assert First(Matches(s), 1, |s|) == Some(2);
    assert First(Matches(s), 0, |s|) == Some(2);
  }

  lemma JoinedKey()
    ensures Search("x/5_img_1_of_2/png7_img_1_of_2.png") == Some(Groups(5, 1, 2))
  {
    JoinedKeyFirst();
    JoinedKeyGroups();
  }

  lemma JoinedKeyMatch()
    ensures !MatchAt("x/5_img_1_of_2/png7_img_1_of_2.png", 0)
    ensures !MatchAt("x/5_img_1_of_2/png7_img_1_of_2.png", 1)
    ensures MatchAt("x/5_img_1_of_2/png7_img_1_of_2.png", 2)
  {
    var s := "x/5_img_1_of_2/png7_img_1_of_2.png";
    assert !IsDigit(s[0]) && !IsDigit(s[1]);
    JoinedKeyRun();
    JoinedKeyTail();
  }

  lemma JoinedKeyTail()
    ensures TailAt("x/5_img_1_of_2/png7_img_1_of_2.png", 3)
  {
    var s := "x/5_img_1_of_2/png7_img_1_of_2.png";
    JoinedKeyImgAt();
    JoinedKeyOfAt();
    JoinedKeyPngAt();
    assert IsDigit(s[8]) && IsDigit(s[13]) && s[14] != '\n';
  }

  lemma JoinedKeyImgAt()
    ensures TextAt("x/5_img_1_of_2/png7_img_1_of_2.png", 3, "_img_")
  {
    var s := "x/5_img_1_of_2/png7_img_1_of_2.png";
    assert s[3] == '_' && s[4] == 'i' && s[5] == 'm' && s[6] == 'g' && s[7] == '_';
  }

  lemma JoinedKeyOfAt()
    ensures TextAt("x/5_img_1_of_2/png7_img_1_of_2.png", 9, "_of_")
  {
    var s := "x/5_img_1_of_2/png7_img_1_of_2.png";
    assert s[9] == '_' && s[10] == 'o' && s[11] == 'f' && s[12] == '_';
  }

  lemma JoinedKeyPngAt()
    ensures TextAt("x/5_img_1_of_2/png7_img_1_of_2.png", 15, "png")
  {
    var s := "x/5_img_1_of_2/png7_img_1_of_2.png";
    assert s[15] == 'p' && s[16] == 'n' && s[17] == 'g';
  }

  lemma JoinedKeyRun()
    ensures RunEnd("x/5_img_1_of_2/png7_img_1_of_2.png", 2) == 3
  {
    var s := "x/5_img_1_of_2/png7_img_1_of_2.png";
    assert IsDigit(s[2]) && !IsDigit(s[3]);
    assert RunEnd(s, 3) == 3;
  }

  lemma JoinedKeyGroups()
    requires MatchAt("x/5_img_1_of_2/png7_img_1_of_2.png", 2)
    ensures GroupsAt("x/5_img_1_of_2/png7_img_1_of_2.png", 2) == Groups(5, 1, 2)
  {
    var s := "x/5_img_1_of_2/png7_img_1_of_2.png";
    JoinedKeyRun();
    assert s[2..3] == [s[2]];
  }

  /** The same for the Kubernetes pattern: the joined path reads total 3 where the bare name reads 2. */
  lemma JoinedPathReadsDirectoryTotal()
    ensures KubeSearch("pngimg_1_of_2.png") == Some(2)
    ensures KubeSearch("x/img_1_of_3/pngimg_1_of_2.png") == Some(3)
  {
    BareTotal();
    JoinedTotal();
  }

  lemma BareTotalFirst()
    ensures First(KubeMatches("pngimg_1_of_2.png"), 0, |"pngimg_1_of_2.png"|) == Some(3)
  {
    var s := "pngimg_1_of_2.png";
    BareTotalMatch();
    assert First(KubeMatches(s), 3, |s|) == Some(3);
    assert First(KubeMatches(s), 2, |s|) == Some(3);
    assert First(KubeMatches(s), 1, |s|) == Some(3);
    assert First(KubeMatches(s), 0, |s|) == Some(3);
  }

  lemma BareTotal()
    ensures KubeSearch("pngimg_1_of_2.png") == Some(2)
  {
    var s := "pngimg_1_of_2.png";
    BareTotalFirst();
    assert DigitValue(s[12]) == 2;
  }

  lemma BareTotalMatch()
    ensures !KubeMatchAt("pngimg_1_of_2.png", 0)
    ensures !KubeMatchAt("pngimg_1_of_2.png", 1)
    ensures !KubeMatchAt("pngimg_1_of_2.png", 2)
    ensures KubeMatchAt("pngimg_1_of_2.png", 3)
  {
    var s := "pngimg_1_of_2.png";
    assert s[0] != 'i' && s[1] != 'i' && s[2] != 'i';
    assert TextAt(s, 3, "img_") && TextAt(s, 8, "_of_") && TextAt(s, 14, "png");
  }

  lemma JoinedTotalFirst()
    ensures First(KubeMatches("x/img_1_of_3/pngimg_1_of_2.png"), 0, |"x/img_1_of_3/pngimg_1_of_2.png"|) == Some(2)
  {
    var s := "x/img_1_of_3/pngimg_1_of_2.png";
    JoinedTotalMatch();
    assert First(KubeMatches(s), 2, |s|) == Some(2);
    assert First(KubeMatches(s), 1, |s|) == Some(2);
    assert First(KubeMatches(s), 0, |s|) == Some(2);
  }

  lemma JoinedTotal()
    ensures KubeSearch("x/img_1_of_3/pngimg_1_of_2.png") == Some(3)
  {
    var s := "x/img_1_of_3/pngimg_1_of_2.png";
    JoinedTotalFirst();
    assert DigitValue(s[11]) == 3;
  }

  lemma JoinedTotalMatch()
    ensures !KubeMatchAt("x/img_1_of_3/pngimg_1_of_2.png", 0)
    ensures !KubeMatchAt("x/img_1_of_3/pngimg_1_of_2.png", 1)
    ensures KubeMatchAt("x/img_1_of_3/pngimg_1_of_2.png", 2)
  {
    var s := "x/img_1_of_3/pngimg_1_of_2.png";
    assert s[0] != 'i' && s[1] != 'i';
    JoinedTotalAtDirectory();
  }

  lemma JoinedTotalAtDirectory()
    ensures KubeMatchAt("x/img_1_of_3/pngimg_1_of_2.png", 2)
  {
    var s := "x/img_1_of_3/pngimg_1_of_2.png";
    JoinedImgAt();
    JoinedOfAt();
    JoinedPngAt();
    assert IsDigit(s[6]) && IsDigit(s[11]) && s[12] != '\n';
  }

  lemma JoinedImgAt()
    ensures TextAt("x/img_1_of_3/pngimg_1_of_2.png", 2, "img_")
  {
    var s := "x/img_1_of_3/pngimg_1_of_2.png";
    assert s[2] == 'i' && s[3] == 'm' && s[4] == 'g' && s[5] == '_';
  }

  lemma JoinedOfAt()
    ensures TextAt("x/img_1_of_3/pngimg_1_of_2.png", 7, "_of_")
  {
    var s := "x/img_1_of_3/pngimg_1_of_2.png";
    assert s[7] == '_' && s[8] == 'o' && s[9] == 'f' && s[10] == '_';
  }

  lemma JoinedPngAt()
    ensures TextAt("x/img_1_of_3/pngimg_1_of_2.png", 13, "png")
  {
    var s := "x/img_1_of_3/pngimg_1_of_2.png";
    assert s[13] == 'p' && s[14] == 'n' && s[15] == 'g';
  }
}
