/**
 * What the controllers' patterns make of the names the workers write,
 * `{unique_key}_img_{img_part+1}_of_{num_workers}.png`.
 */
module TileNames {
  import opened Wrappers
  import opened Decimal
  import opened Worker
  import opened TilePattern

  /** Where each piece of a tile name `k_img_a_of_b.png` sits. */
  lemma Layout(k: string, a: string, b: string)
    ensures var name := k + "_img_" + a + "_of_" + b + ".png";
      |name| == |k| + |a| + |b| + 13
      && (forall j :: 0 <= j < |k| ==> name[j] == k[j])
      && TextAt(name, |k|, "_img_")
      && (forall j :: 0 <= j < |a| ==> name[|k| + 5 + j] == a[j])
      && TextAt(name, |k| + 5 + |a|, "_of_")
      && (forall j :: 0 <= j < |b| ==> name[|k| + 9 + |a| + j] == b[j])
      && TextAt(name, |k| + 9 + |a| + |b|, ".png")
  {
  }

  /** The only `i` of a tile name is the one of `_img_`. */
  lemma OnlyI(key: int, part: Part)
    ensures var name := TileName(key, part);
      forall j :: 0 <= j < |name| && name[j] == 'i' ==> j == |FormatInt(key)| + 1
  {
    OnlyIBetween(FormatInt(key), FormatNat(part.imgPart + 1), FormatNat(part.numWorkers));
  }

  /** In `k_img_a_of_b.png` with `k` a signed number and `a`, `b` numbers, the only `i` is the one of `_img_`. */
  lemma OnlyIBetween(k: string, a: string, b: string)
    requires forall j :: 0 <= j < |k| ==> IsDigit(k[j]) || k[j] == '-'
    requires AllDigits(a) && AllDigits(b)
    ensures var name := k + "_img_" + a + "_of_" + b + ".png";
      forall j :: 0 <= j < |name| && name[j] == 'i' ==> j == |k| + 1
  {
    var tail := "mg_" + a + "_of_" + b + ".png";
    assert k + "_img_" + a + "_of_" + b + ".png" == k + "_i" + tail;
    assert 'i' !in tail by {
      assert 'i' !in a && 'i' !in b;
    }
    forall j | 0 <= j < |k + "_i" + tail| && j != |k| + 1
      ensures (k + "_i" + tail)[j] != 'i'
    {
      if j < |k| {
        assert (k + "_i" + tail)[j] == k[j];
      } else if j > |k| + 1 {
        assert (k + "_i" + tail)[j] == tail[j - |k| - 2];
      }
    }
  }

  /** A run of digits followed by a non-digit ends exactly there. */
  lemma RunEndAt(s: string, i: nat, p: nat)
    requires i <= p < |s| && !IsDigit(s[p])
    requires forall j :: i <= j < p ==> IsDigit(s[j])
    ensures RunEnd(s, i) == p
  {
  }

  /**
   * Wherever `controller.py`'s pattern matches a tile name, its `_img_` is
   * the name's own, so the digits of the key run up to it.
   */
  lemma MatchIsAtImg(key: int, part: Part, i: nat)
    requires MatchAt(TileName(key, part), i)
    ensures RunEnd(TileName(key, part), i) == |FormatInt(key)|
  {
    OnlyI(key, part);
    MatchAtOnlyI(TileName(key, part), |FormatInt(key)| + 1, i);
  }

  /** In a name whose only `i` is at `at`, a match has its `_img_` right before it. */
  lemma MatchAtOnlyI(name: string, at: nat, i: nat)
    requires forall j :: 0 <= j < |name| && name[j] == 'i' ==> j == at
    requires MatchAt(name, i)
    ensures RunEnd(name, i) + 1 == at
  {
    var p := RunEnd(name, i);
    assert name[p + 1] == "_img_"[1];
  }

  /** With a one-digit ordinal and total, the pattern fits right after the key. */
  lemma ShortNameMatches(key: int, part: Part)
    requires part.imgPart + 1 <= 9 && 1 <= part.numWorkers <= 9
    ensures var name, start := TileName(key, part), if key < 0 then 1 else 0;
      MatchAt(name, start) && GroupsAt(name, start) == Groups(if key < 0 then -key else key, part.imgPart + 1, part.numWorkers)
  {
    var k, start := FormatInt(key), if key < 0 then 1 else 0;
    var m := if key < 0 then -key else key;
    assert k[start..] == FormatNat(m);
    FormatSmall(part.imgPart + 1);
    FormatSmall(part.numWorkers);
    MatchAfterKey(k, start, DigitChar(part.imgPart + 1), DigitChar(part.numWorkers));
    ParseFormat(m);
  }

  /**
   * In `k_img_a_of_b.png`, with digits from `start` to the end of `k` and
   * digits `a` and `b`, the pattern matches at `start` with the groups those
   * digits spell.
   */
  lemma MatchAfterKey(k: string, start: nat, a: char, b: char)
    requires start < |k| && AllDigits(k[start..])
    requires IsDigit(a) && IsDigit(b)
    ensures var name := k + "_img_" + [a] + "_of_" + [b] + ".png";
      MatchAt(name, start) && GroupsAt(name, start) == Groups(ParseDigits(k[start..]), DigitValue(a), DigitValue(b))
  {
    var name := k + "_img_" + [a] + "_of_" + [b] + ".png";
    Layout(k, [a], [b]);
    forall j | start <= j < |k| ensures IsDigit(name[j]) {
      assert name[j] == k[start..][j - start];
    }
    RunEndAt(name, start, |k|);
    assert name[start..|k|] == k[start..];
  }

  /**
   * For a key `>= 0` and at most nine workers, the name a worker writes
   * matches `(\d+)_img_(\d)_of_(\d).png` with the groups `(unique_key,
   * img_part + 1, num_workers)`.
   */
  lemma NameRoundTrip(key: nat, part: Part)
    requires part.imgPart + 1 <= 9 && 1 <= part.numWorkers <= 9
    ensures Search(TileName(key, part)) == Some(Groups(key, part.imgPart + 1, part.numWorkers))
  {
    ShortNameMatches(key, part);
    SearchAt(TileName(key, part), 0);
  }

  /**
   * For a key `< 0` the leftmost match starts after the minus sign, so the
   * key group is the key's magnitude, which differs from the key: the
   * controller's key filter drops every tile of such a job.
   */
  lemma NegativeKeyGroup(key: int, part: Part)
    requires key < 0
    requires part.imgPart + 1 <= 9 && 1 <= part.numWorkers <= 9
    ensures Search(TileName(key, part)) == Some(Groups(-key, part.imgPart + 1, part.numWorkers))
    ensures Search(TileName(key, part)).value.key != key
  {
    ShortNameMatches(key, part);
    assert TileName(key, part)[0] == FormatInt(key)[0] == '-';
    SearchAt(TileName(key, part), 1);
  }

  /**
   * With a two-digit ordinal or total, the text after the key is not
   * `_img_\d_of_\d.png`, so neither pattern fits at the name's `_img_`.
   */
  lemma LongTailFails(key: int, part: Part)
    requires part.imgPart + 1 >= 10 || part.numWorkers >= 10
    ensures !TailAt(TileName(key, part), |FormatInt(key)|)
    ensures !KubeMatchAt(TileName(key, part), |FormatInt(key)| + 1)
  {
    var k, a, b := FormatInt(key), FormatNat(part.imgPart + 1), FormatNat(part.numWorkers);
    var name := TileName(key, part);
    Layout(FormatInt(key), FormatNat(part.imgPart + 1), FormatNat(part.numWorkers));
    assert "_of_"[0] == '_' && "png"[0] == 'p';
    if |a| >= 2 {
      assert name[|k| + 6] == a[1] && IsDigit(a[1]);
    } else if |b| >= 3 {
      assert name[|k| + 12] == b[2] && IsDigit(b[2]);
    } else {
      assert name[|k| + 12] == '.';
    }
  }

  /**
   * A tile whose ordinal or total has two or more digits matches nowhere:
   * the controller never sees it.
   */
  lemma LongNameIgnored(key: int, part: Part)
    requires part.imgPart + 1 >= 10 || part.numWorkers >= 10
    ensures Search(TileName(key, part)).None?
  {
    var name := TileName(key, part);
    LongTailFails(key, part);
    forall i | 0 <= i < |name|
      ensures !MatchAt(name, i)
    {
      if MatchAt(name, i) {
        MatchIsAtImg(key, part, i);
      }
    }
    SearchSpec(name);
  }

  /**
   * The Kubernetes pattern `img_\d_of_(\d).png` finds the total of any
   * worker's name with a one-digit ordinal and total, whatever the key.
   */
  lemma KubeNameRoundTrip(key: int, part: Part)
    requires part.imgPart + 1 <= 9 && 1 <= part.numWorkers <= 9
    ensures KubeSearch(TileName(key, part)) == Some(part.numWorkers)
  {
    FormatSmall(part.imgPart + 1);
    FormatSmall(part.numWorkers);
    KubeMatchAfterKey(FormatInt(key), DigitChar(part.imgPart + 1), DigitChar(part.numWorkers));
  }

  /**
   * In `k_img_a_of_b.png`, with `k` a signed number and digits `a` and `b`,
   * the Kubernetes pattern matches only right after `k` and reads `b`.
   */
  lemma KubeMatchAfterKey(k: string, a: char, b: char)
    requires forall j :: 0 <= j < |k| ==> IsDigit(k[j]) || k[j] == '-'
    requires IsDigit(a) && IsDigit(b)
    ensures KubeSearch(k + "_img_" + [a] + "_of_" + [b] + ".png") == Some(DigitValue(b))
  {
    var name := k + "_img_" + [a] + "_of_" + [b] + ".png";
    Layout(k, [a], [b]);
    assert KubeMatchAt(name, |k| + 1);
    OnlyIBetween(k, [a], [b]);
    forall i | 0 <= i < |name| && KubeMatchAt(name, i)
      ensures i == |k| + 1
    {
      KubeMatchAtOnlyI(name, |k| + 1, i);
    }
    KubeSearchSpec(name);
  }

  /** With a two-digit ordinal or total the Kubernetes pattern does not match either. */
  lemma KubeLongNameIgnored(key: int, part: Part)
    requires part.imgPart + 1 >= 10 || part.numWorkers >= 10
    ensures KubeSearch(TileName(key, part)).None?
  {
    LongTailFails(key, part);
    OnlyI(key, part);
    KubeNoMatch(TileName(key, part), |FormatInt(key)| + 1);
  }

  /** A name whose only `i` is at `at`, with no match there, has no match at all. */
  lemma KubeNoMatch(name: string, at: nat)
    requires forall j :: 0 <= j < |name| && name[j] == 'i' ==> j == at
    requires !KubeMatchAt(name, at)
    ensures KubeSearch(name).None?
  {
    forall i | 0 <= i < |name|
      ensures !KubeMatchAt(name, i)
    {
      if KubeMatchAt(name, i) {
        KubeMatchAtOnlyI(name, at, i);
      }
    }
    KubeSearchSpec(name);
  }

  /** In a name whose only `i` is at `at`, the Kubernetes pattern can only match there. */
  lemma KubeMatchAtOnlyI(name: string, at: nat, i: nat)
    requires forall j :: 0 <= j < |name| && name[j] == 'i' ==> j == at
    requires KubeMatchAt(name, i)
    ensures i == at
  {
    assert name[i] == "img_"[0];
  }
}
