/** `toTitleCase(str)`: a global regular-expression replacement of the
    pattern `\w\S*` (one word character, then any run of non-white-space) by
    the match with its first character upper-cased and the rest lower-cased.
    The global scan finds a match at the first word character of each
    white-space-delimited run, and the match takes in the rest of that run. */
module TitleCasing {
  import opened Chars

  /** Length of the longest prefix of `s` that contains no white space. */
  function RunLength(s: string): (k: nat)
    ensures k <= |s|
    ensures forall i :: 0 <= i < k ==> !IsSpace(s[i])
    ensures k < |s| ==> IsSpace(s[k])
  {
    if |s| == 0 || IsSpace(s[0]) then 0 else 1 + RunLength(s[1..])
  }

  /** The replacement scan, left to right: at a word character a match
      starts and runs to the next white space; any other character is
      passed over unchanged. */
  function TitleCase(s: string): (r: string)
    ensures |r| == |s|
    decreases |s|
  {
    if |s| == 0 then ""
    else if IsWordChar(s[0]) then
      var k := RunLength(s);
      [ToUpper(s[0])] + LowerString(s[1..k]) + TitleCase(s[k..])
    else
      [s[0]] + TitleCase(s[1..])
  }

  /** Position `i` lies inside a match but is not its first character: an
      earlier word character starts a white-space-free stretch reaching `i`. */
  ghost predicate InMatch(s: string, i: int)
    requires 0 <= i < |s|
  {
    exists j :: 0 <= j < i && IsWordChar(s[j]) && forall m :: j <= m <= i ==> !IsSpace(s[m])
  }

  /** What the replacement leaves at position `i`, independently of the scan:
      lower case inside a match, upper case where a match starts, and the
      character itself everywhere else. */
  ghost function TitleCharAt(s: string, i: int): (c: char)
    requires 0 <= i < |s|
  {
    if InMatch(s, i) then ToLower(s[i])
    else if IsWordChar(s[i]) then ToUpper(s[i])
    else s[i]
  }

  /** Dropping a prefix that ends just before a white-space character does not
      change which later positions are inside a match. */
  lemma InMatchAfterSpace(s: string, k: nat, i: nat)
    requires k <= i < |s| && IsSpace(s[k])
    ensures InMatch(s, i) <==> InMatch(s[k..], i - k)
  {
    var t := s[k..];
    if InMatch(s, i) {
      var j :| 0 <= j < i && IsWordChar(s[j]) && forall m :: j <= m <= i ==> !IsSpace(s[m]);
      assert j > k;
      assert IsWordChar(t[j - k]);
      forall m | j - k <= m <= i - k ensures !IsSpace(t[m]) {
        assert t[m] == s[m + k];
      }
    }
    if InMatch(t, i - k) {
      var j :| 0 <= j < i - k && IsWordChar(t[j]) && forall m :: j <= m <= i - k ==> !IsSpace(t[m]);
      assert IsWordChar(s[j + k]);
      forall m | j + k <= m <= i ensures !IsSpace(s[m]) {
        assert s[m] == t[m - k];
      }
    }
  }

  /** Dropping a leading character that is not a word character does not
      change which later positions are inside a match. */
  lemma InMatchAfterNonWord(s: string, i: nat)
    requires 0 < i < |s| && !IsWordChar(s[0])
    ensures InMatch(s, i) <==> InMatch(s[1..], i - 1)
  {
    var t := s[1..];
    if InMatch(s, i) {
      var j :| 0 <= j < i && IsWordChar(s[j]) && forall m :: j <= m <= i ==> !IsSpace(s[m]);
      assert IsWordChar(t[j - 1]);
      forall m | j - 1 <= m <= i - 1 ensures !IsSpace(t[m]) {
        assert t[m] == s[m + 1];
      }
    }
    if InMatch(t, i - 1) {
      var j :| 0 <= j < i - 1 && IsWordChar(t[j]) && forall m :: j <= m <= i - 1 ==> !IsSpace(t[m]);
      assert IsWordChar(s[j + 1]);
      forall m | j + 1 <= m <= i ensures !IsSpace(s[m]) {
        assert s[m] == t[m - 1];
      }
    }
  }

  /** The scan agrees, position by position, with the pointwise description. */
  lemma {:induction false} TitleCaseIsPointwise(s: string)
    ensures forall i :: 0 <= i < |s| ==> TitleCase(s)[i] == TitleCharAt(s, i)
    decreases |s|
  {
    if |s| > 0 {
      var r := TitleCase(s);
      if IsWordChar(s[0]) {
        var k := RunLength(s);
        var t := s[k..];
        TitleCaseIsPointwise(t);
        forall i | 0 <= i < |s| ensures r[i] == TitleCharAt(s, i) {
          if i == 0 {
            assert !InMatch(s, 0);
          } else if i < k {
            assert forall m :: 0 <= m <= i ==> !IsSpace(s[m]);
            assert InMatch(s, i);
            assert r[i] == LowerString(s[1..k])[i - 1];
          } else {
            InMatchAfterSpace(s, k, i);
            assert r[i] == TitleCase(t)[i - k];
            assert t[i - k] == s[i];
          }
        }
      } else {
        TitleCaseIsPointwise(s[1..]);
        forall i | 0 <= i < |s| ensures r[i] == TitleCharAt(s, i) {
          if i == 0 {
            assert !InMatch(s, 0);
          } else {
            InMatchAfterNonWord(s, i);
            assert r[i] == TitleCase(s[1..])[i - 1];
          }
        }
      }
    }
  }

  /** The result keeps the length, every white-space character in place, and
      the word-character class of every position. */
  lemma TitleCaseKeepsShape(s: string)
    ensures |TitleCase(s)| == |s|
    ensures forall i :: 0 <= i < |s| ==> IsSpace(TitleCase(s)[i]) == IsSpace(s[i])
    ensures forall i :: 0 <= i < |s| ==> IsWordChar(TitleCase(s)[i]) == IsWordChar(s[i])
    ensures forall i :: 0 <= i < |s| && IsSpace(s[i]) ==> TitleCase(s)[i] == s[i]
  {
    TitleCaseIsPointwise(s);
    forall i | 0 <= i < |s|
      ensures IsSpace(TitleCase(s)[i]) == IsSpace(s[i])
      ensures IsWordChar(TitleCase(s)[i]) == IsWordChar(s[i])
      ensures IsSpace(s[i]) ==> TitleCase(s)[i] == s[i]
    {
      CaseKeepsClass(s[i]);
      if IsSpace(s[i]) {
        assert !InMatch(s, i);
      }
    }
  }

  /** A white-space-delimited word that starts with a word character comes
      out with its first character in upper case and the rest in lower case. */
  lemma WordIsCapitalised(s: string, a: nat, b: nat)
    requires a < b <= |s| && IsWordChar(s[a])
    requires a == 0 || IsSpace(s[a - 1])
    requires forall m :: a <= m < b ==> !IsSpace(s[m])
    ensures TitleCase(s)[a] == ToUpper(s[a])
    ensures forall m :: a < m < b ==> TitleCase(s)[m] == ToLower(s[m])
  {
    TitleCaseIsPointwise(s);
    assert !InMatch(s, a);
    forall m | a < m < b ensures TitleCase(s)[m] == ToLower(s[m]) {
      assert InMatch(s, m);
    }
  }

  /** Two strings with the same white space and word characters in the same
      places have their matches in the same places. */
  lemma InMatchSameShape(s: string, t: string, i: nat)
    requires |s| == |t| && i < |s|
    requires forall m :: 0 <= m < |s| ==> IsSpace(s[m]) == IsSpace(t[m])
    requires forall m :: 0 <= m < |s| ==> IsWordChar(s[m]) == IsWordChar(t[m])
    ensures InMatch(s, i) <==> InMatch(t, i)
  {
    if InMatch(s, i) {
      var j :| 0 <= j < i && IsWordChar(s[j]) && forall m :: j <= m <= i ==> !IsSpace(s[m]);
      assert IsWordChar(t[j]);
    }
    if InMatch(t, i) {
      var j :| 0 <= j < i && IsWordChar(t[j]) && forall m :: j <= m <= i ==> !IsSpace(t[m]);
      assert IsWordChar(s[j]);
    }
  }

  /** Title-casing an already title-cased string changes nothing. */
  lemma TitleCaseIdempotent(s: string)
    ensures TitleCase(TitleCase(s)) == TitleCase(s)
  {
    var r := TitleCase(s);
    TitleCaseIsPointwise(s);
    TitleCaseIsPointwise(r);
    TitleCaseKeepsShape(s);
    forall i | 0 <= i < |r| ensures TitleCase(r)[i] == r[i] {
      InMatchSameShape(s, r, i);
      CaseKeepsClass(s[i]);
      CaseKeepsClass(r[i]);
    }
  }

  /** The schedule names as they appear in the heading. */
  lemma ScheduleHeadings()
    ensures TitleCase("week") == "Week"
    ensures TitleCase("month") == "Month"
  {
    WeekHeading();
    MonthHeading();
  }

  lemma WeekHeading()
    ensures TitleCase("week") == "Week"
  {
    var s := "week";
    assert RunLength(s) == 4;
    assert s[1..4] == "eek" && s[4..] == [];
    assert LowerString("eek") == "eek";
  }

  lemma MonthHeading()
    ensures TitleCase("month") == "Month"
  {
    var s := "month";
    assert RunLength(s) == 5;
    assert s[1..5] == "onth" && s[5..] == [];
    assert LowerString("onth") == "onth";
  }
}
