/**
 * Locale helpers of the settings UI: the locale the UI starts in, and
 * `formatDateTime`, which asks the platform to render a date with a set of
 * fields that depends on how close the date is to today, then tidies the
 * whitespace of the rendered text.
 *
 * The platform's rendering (`toLocaleString`) is a parameter: the model fixes
 * which fields are requested and what happens to the text afterwards.
 */
module I18n {
  import opened Util

  // ---------------------------------------------------------------------
  // Initial locale
  // ---------------------------------------------------------------------

  /** The locale used when a message is missing in the current one. */
  const FallbackLocale: string := "en"

  /**
   * The initial locale: the UI language's primary subtag (the text before
   * the first `-`), or `"en"` when that text is empty.
   */
  function InitialLocale(uiLanguage: string): (r: string)
    ensures r != [] && '-' !in r
    ensures (uiLanguage == [] || uiLanguage[0] == '-') ==> r == FallbackLocale
    ensures uiLanguage != [] && uiLanguage[0] != '-' ==>
              |r| <= |uiLanguage| && r == uiLanguage[..|r|] &&
              (|r| == |uiLanguage| || uiLanguage[|r|] == '-')
  {
    var cut := IndexOf(uiLanguage, '-');
    var primary := if cut == -1 then uiLanguage else uiLanguage[..cut];
    assert cut == -1 ==> '-' !in primary;
    if primary == [] then FallbackLocale else primary
  }

  // ---------------------------------------------------------------------
  // Field selection of formatDateTime
  // ---------------------------------------------------------------------

  /** A local calendar date as `getFullYear`, `getMonth` and `getDate` give it. */
  datatype CivilDate = CivilDate(year: int, month: int, day: int)

  /** How a requested field is rendered. */
  datatype Style = Numeric | Short

  /** The options object handed to `toLocaleString`; `None` is `undefined`. */
  datatype LocaleOptions = LocaleOptions(
    year: Option<Style>,
    month: Option<Style>,
    day: Option<Style>,
    hour: Option<Style>,
    minute: Option<Style>,
    hour12: bool)

  predicate SameYear(date: CivilDate, now: CivilDate) {
    date.year == now.year
  }

  predicate SameMonth(date: CivilDate, now: CivilDate) {
    SameYear(date, now) && date.month == now.month
  }

  predicate SameDay(date: CivilDate, now: CivilDate) {
    SameMonth(date, now) && date.day == now.day
  }

  /**
   * The fields `formatDateTime` requests. In the full form everything; in the
   * short form today's dates show only the time, other dates of this year
   * show the date and the time, and dates of another year only the date.
   */
  function RequestedOptions(date: CivilDate, now: CivilDate, full: bool): (o: LocaleOptions)
    ensures o.year.Some? <==> full || !SameYear(date, now)
    ensures o.month.Some? <==> full || !SameDay(date, now)
    ensures o.day.Some? == o.month.Some? && o.minute.Some? == o.hour.Some?
    ensures o.hour.Some? <==> full || SameYear(date, now)
    ensures o.year.Some? || o.month.Some? || o.hour.Some?
    ensures !full && SameDay(date, now) ==>
              o.year.None? && o.month.None? && o.day.None? && o.hour.Some? && o.minute.Some?
    ensures !full && !SameYear(date, now) ==>
              o.year.Some? && o.month.Some? && o.day.Some? && o.hour.None? && o.minute.None?
    ensures o.month in {None, Some(Short)} && o.hour12
  {
    var sameYear := SameYear(date, now);
    var sameDay := SameDay(date, now);
    LocaleOptions(
      year := if full || !sameYear then Some(Numeric) else None,
      month := if full || !sameDay then Some(Short) else None,
      day := if full || !sameDay then Some(Numeric) else None,
      hour := if full || sameYear then Some(Numeric) else None,
      minute := if full || sameYear then Some(Numeric) else None,
      hour12 := true)
  }

  // ---------------------------------------------------------------------
  // Whitespace post-processing
  // ---------------------------------------------------------------------

  /** `\w` of a JavaScript regular expression: ASCII letters, digits, `_`. */
  predicate IsWordChar(c: char) {
    ('a' <= c <= 'z') || ('A' <= c <= 'Z') || ('0' <= c <= '9') || c == '_'
  }

  /** The characters `\s` matches in a JavaScript regular expression, which are also what `trim` removes. */
  const SpaceChars: set<char> := {
    ' ', '\t', '\n', '\r', '\U{B}', '\U{C}', '\U{A0}', '\U{1680}',
    '\U{2000}', '\U{2001}', '\U{2002}', '\U{2003}', '\U{2004}', '\U{2005}',
    '\U{2006}', '\U{2007}', '\U{2008}', '\U{2009}', '\U{200A}',
    '\U{2028}', '\U{2029}', '\U{202F}', '\U{205F}', '\U{3000}', '\U{FEFF}'
  }

  predicate IsSpace(c: char) {
    c in SpaceChars
  }

  /** The visible characters of `s`, in order. */
  function Visible(s: string): string {
    if s == [] then [] else (if IsSpace(s[0]) then [] else [s[0]]) + Visible(s[1..])
  }

  lemma {:induction false} VisibleAppend(a: string, b: string)
    ensures Visible(a + b) == Visible(a) + Visible(b)
  {
    if a == [] {
      assert a + b == b;
    } else {
      assert (a + b)[1..] == a[1..] + b;
      VisibleAppend(a[1..], b);
    }
  }

  /** What `.replace(/\b(\w+)\b/g, ' $1 ')` puts in place of `s[i]`. */
  function SpacedAt(s: string, i: nat): string
    requires i < |s|
  {
    var word := IsWordChar(s[i]);
    var starts := word && (i == 0 || !IsWordChar(s[i - 1]));
    var ends := word && (i + 1 == |s| || !IsWordChar(s[i + 1]));
    (if starts then " " else "") + [s[i]] + (if ends then " " else "")
  }

  /**
   * `.replace(/\b(\w+)\b/g, ' $1 ')` applied to `s[i..]`: every maximal run
   * of word characters is given a space on either side.
   */
  function SpaceWordsFrom(s: string, i: nat): string
    requires i <= |s|
    decreases |s| - i
  {
    if i == |s| then "" else SpacedAt(s, i) + SpaceWordsFrom(s, i + 1)
  }

  /**
   * `.replace(/\b(\w+)\b/g, ' $1 ')` on the whole text: the visible text is
   * kept, every maximal run of word characters has a space right before
   * and right after it, and dropping those inserted spaces gives `s` back.
   */
  function SpaceWords(s: string): (r: string)
    ensures Visible(r) == Visible(s)
    ensures forall a: nat, b: nat :: WordRun(r, a, b) ==> 0 < a && b < |r| && r[a - 1] == ' ' && r[b] == ' '
    ensures Unpad(r) == s
  {
    SpaceWordsKeepsText(s, 0);
    SpacedAfter(s, 0);
    SpacedBefore(s, 0);
    RunsPadded(SpaceWordsFrom(s, 0));
    UnpadSpaced(s, 0);
    SpaceWordsFrom(s, 0)
  }

  /** `r[a..b]` is a maximal run of word characters. */
  predicate WordRun(r: string, a: nat, b: nat) {
    a < b <= |r| && (forall k :: a <= k < b ==> IsWordChar(r[k])) &&
    (a == 0 || !IsWordChar(r[a - 1])) && (b == |r| || !IsWordChar(r[b]))
  }

  /** `x[i]` exists and is a word character or a space. */
  predicate WordOrSpaceAt(x: string, i: int) {
    0 <= i < |x| && (IsWordChar(x[i]) || x[i] == ' ')
  }

  /** Every word character is followed by a word character or a space. */
  predicate PaddedAfter(x: string) {
    forall k :: 0 <= k < |x| && IsWordChar(x[k]) ==> WordOrSpaceAt(x, k + 1)
  }

  /**
   * Every word character is preceded by a word character or a space; when
   * `open` holds, a word character may also come first (`x` continues a word).
   */
  predicate PaddedBefore(x: string, open: bool) {
    forall k :: 0 <= k < |x| && IsWordChar(x[k]) ==> (k == 0 && open) || WordOrSpaceAt(x, k - 1)
  }

  /**
   * The text with the spaces the word spacing inserts taken out again: a
   * space right before a word character, and one right after a word
   * character, are dropped.
   */
  function Unpad(r: string): string
    decreases |r|
  {
    if r == [] then []
    else if r[0] == ' ' && |r| > 1 && IsWordChar(r[1]) then Unpad(r[1..])
    else if IsWordChar(r[0]) && |r| > 1 && r[1] == ' ' then [r[0]] + Unpad(r[2..])
    else [r[0]] + Unpad(r[1..])
  }

  /** The first character of the spaced text from `i` on: a space before a word that starts there, else `s[i]`. */
  lemma SpacedHead(s: string, i: nat)
    requires i < |s|
    ensures SpaceWordsFrom(s, i) != []
    ensures SpaceWordsFrom(s, i)[0] == if IsWordChar(s[i]) && (i == 0 || !IsWordChar(s[i - 1])) then ' ' else s[i]
  {
  }

  lemma {:induction false} SpacedAfter(s: string, i: nat)
    requires i <= |s|
    ensures PaddedAfter(SpaceWordsFrom(s, i))
    decreases |s| - i
  {
    if i < |s| {
      SpacedAfter(s, i + 1);
      var chunk, rest := SpacedAt(s, i), SpaceWordsFrom(s, i + 1);
      var x := chunk + rest;
      assert x == SpaceWordsFrom(s, i);
      var pre := if IsWordChar(s[i]) && (i == 0 || !IsWordChar(s[i - 1])) then " " else "";
      var ends := IsWordChar(s[i]) && (i + 1 == |s| || !IsWordChar(s[i + 1]));
      var post := if ends then " " else "";
      assert chunk == pre + [s[i]] + post;
      forall k | 0 <= k < |x| && IsWordChar(x[k])
        ensures WordOrSpaceAt(x, k + 1)
      {
        if k < |chunk| {
          assert x[k] == chunk[k];
          assert k == |pre| by {
            assert !IsWordChar(' ');
          }
          if !ends {
            SpacedHead(s, i + 1);
            assert x[k + 1] == rest[0];
          } else {
            assert x[k + 1] == ' ';
          }
        } else {
          assert x[k] == rest[k - |chunk|];
          assert x[k + 1] == rest[k + 1 - |chunk|];
        }
      }
    }
  }

  lemma {:induction false} SpacedBefore(s: string, i: nat)
    requires i <= |s|
    ensures PaddedBefore(SpaceWordsFrom(s, i), 0 < i && IsWordChar(s[i - 1]))
    decreases |s| - i
  {
    if i < |s| {
      SpacedBefore(s, i + 1);
      var chunk, rest := SpacedAt(s, i), SpaceWordsFrom(s, i + 1);
      var x := chunk + rest;
      assert x == SpaceWordsFrom(s, i);
      var starts := IsWordChar(s[i]) && (i == 0 || !IsWordChar(s[i - 1]));
      var pre := if starts then " " else "";
      var post := if IsWordChar(s[i]) && (i + 1 == |s| || !IsWordChar(s[i + 1])) then " " else "";
      assert chunk == pre + [s[i]] + post;
      forall k | 0 <= k < |x| && IsWordChar(x[k])
        ensures (k == 0 && 0 < i && IsWordChar(s[i - 1])) || WordOrSpaceAt(x, k - 1)
      {
        if k < |chunk| {
          assert x[k] == chunk[k];
          assert k == |pre| by {
            assert !IsWordChar(' ');
          }
          if starts {
            assert x[k - 1] == ' ';
          }
        } else if k == |chunk| {
          assert x[k] == rest[0];
          assert x[k - 1] == chunk[|chunk| - 1];
        } else {
          assert x[k] == rest[k - |chunk|];
          assert x[k - 1] == rest[k - 1 - |chunk|];
        }
      }
    }
  }

  /** With both paddings, each maximal run of word characters sits between two spaces. */
  lemma RunsPadded(r: string)
    requires PaddedAfter(r) && PaddedBefore(r, false)
    ensures forall a: nat, b: nat :: WordRun(r, a, b) ==> 0 < a && b < |r| && r[a - 1] == ' ' && r[b] == ' '
  {
    forall a: nat, b: nat | WordRun(r, a, b)
      ensures 0 < a && b < |r| && r[a - 1] == ' ' && r[b] == ' '
    {
      assert IsWordChar(r[a]) && IsWordChar(r[b - 1]);
      assert WordOrSpaceAt(r, a - 1) && WordOrSpaceAt(r, b);
    }
  }

  /** Taking the inserted spaces out of the spaced text from `i` on gives `s[i..]` back. */
  lemma {:induction false} UnpadSpaced(s: string, i: nat)
    requires i <= |s|
    ensures Unpad(SpaceWordsFrom(s, i)) == s[i..]
    decreases |s| - i
  {
    if i < |s| {
      UnpadSpaced(s, i + 1);
      UnpadLeadingPad(s, i);
      UnpadTrailingPad(s, i);
      assert s[i..] == [s[i]] + s[i + 1..];
    }
  }

  /** The spaced text from `i` on without the space put before a word starting at `i`. */
  function AfterLeadingPad(s: string, i: nat): string
    requires i < |s|
  {
    var ends := IsWordChar(s[i]) && (i + 1 == |s| || !IsWordChar(s[i + 1]));
    [s[i]] + (if ends then " " else "") + SpaceWordsFrom(s, i + 1)
  }

  /** The spaced text from `i` on is the space put before a word starting at `i`, if any, then the rest. */
  lemma LeadingPadSplit(s: string, i: nat)
    requires i < |s|
    ensures SpaceWordsFrom(s, i) ==
      (if IsWordChar(s[i]) && (i == 0 || !IsWordChar(s[i - 1])) then " " else "") + AfterLeadingPad(s, i)
  {
  }

  /** A space put before a word is dropped. */
  lemma UnpadLeadingPad(s: string, i: nat)
    requires i < |s|
    ensures Unpad(SpaceWordsFrom(s, i)) == Unpad(AfterLeadingPad(s, i))
  {
    LeadingPadSplit(s, i);
    var core := AfterLeadingPad(s, i);
    if IsWordChar(s[i]) && (i == 0 || !IsWordChar(s[i - 1])) {
      var x := " " + core;
      assert x[0] == ' ' && x[1] == s[i] && x[1..] == core;
      assert Unpad(x) == Unpad(core);
    } else {
      assert "" + core == core;
    }
  }

  /** `s[i]` is kept and a space put after it, when it ends a word, is dropped. */
  lemma UnpadTrailingPad(s: string, i: nat)
    requires i < |s|
    ensures Unpad(AfterLeadingPad(s, i)) == [s[i]] + Unpad(SpaceWordsFrom(s, i + 1))
  {
    var c, rest := s[i], SpaceWordsFrom(s, i + 1);
    var ends := IsWordChar(c) && (i + 1 == |s| || !IsWordChar(s[i + 1]));
    var core := AfterLeadingPad(s, i);
    if ends {
      assert core[1] == ' ' && core[2..] == rest;
      assert Unpad(core) == [c] + Unpad(core[2..]);
    } else {
      assert core[1..] == rest;
      if i + 1 < |s| {
        SpacedHead(s, i + 1);
        assert core[1] == rest[0];
      }
      assert Unpad(core) == [c] + Unpad(core[1..]);
    }
  }

  /** Spacing out the words adds only spaces: the visible text is unchanged. */
  lemma {:induction false} SpaceWordsKeepsText(s: string, i: nat)
    requires i <= |s|
    ensures Visible(SpaceWordsFrom(s, i)) == Visible(s[i..])
    decreases |s| - i
  {
    if i < |s| {
      SpaceWordsKeepsText(s, i + 1);
      var pre := if IsWordChar(s[i]) && (i == 0 || !IsWordChar(s[i - 1])) then " " else "";
      var post := if IsWordChar(s[i]) && (i + 1 == |s| || !IsWordChar(s[i + 1])) then " " else "";
      assert SpacedAt(s, i) == pre + [s[i]] + post;
      assert Visible(pre) == [] && Visible(post) == [] by {
        assert IsSpace(' ') && " "[1..] == [];
      }
      VisibleAppend(pre, [s[i]]);
      VisibleAppend(pre + [s[i]], post);
      assert Visible(SpacedAt(s, i)) == Visible([s[i]]);
      VisibleAppend(SpacedAt(s, i), SpaceWordsFrom(s, i + 1));
      VisibleAppend([s[i]], s[i + 1..]);
      assert s[i..] == [s[i]] + s[i + 1..];
    }
  }

  /** The first place where two whitespace characters follow each other. */
  function FirstDoubleSpace(s: string): (i: int)
    ensures -1 <= i < |s|
    ensures i == -1 <==> forall k :: 0 <= k < |s| - 1 ==> !(IsSpace(s[k]) && IsSpace(s[k + 1]))
    ensures 0 <= i ==> i + 1 < |s| && IsSpace(s[i]) && IsSpace(s[i + 1]) &&
                       forall k :: 0 <= k < i ==> !(IsSpace(s[k]) && IsSpace(s[k + 1]))
  {
    if |s| < 2 then -1
    else if IsSpace(s[0]) && IsSpace(s[1]) then 0
    else
      var k := FirstDoubleSpace(s[1..]);
      if k == -1 then -1 else k + 1
  }

  /** The end of the whitespace run starting at `i`. */
  function RunEnd(s: string, i: nat): (j: nat)
    requires i <= |s|
    ensures i <= j <= |s| && (j == |s| || !IsSpace(s[j]))
    ensures forall k :: i <= k < j ==> IsSpace(s[k])
    decreases |s| - i
  {
    if i < |s| && IsSpace(s[i]) then RunEnd(s, i + 1) else i
  }

  /**
   * `.replace(/\s{2,}/, ' ')`, as written: without the `g` flag only the
   * leftmost run of two or more whitespace characters becomes one space.
   */
  function CollapseFirst(s: string): (r: string)
    ensures FirstDoubleSpace(s) == -1 ==> r == s
    ensures FirstDoubleSpace(s) >= 0 ==>
      r == s[..FirstDoubleSpace(s)] + " " + s[RunEnd(s, FirstDoubleSpace(s))..]
    ensures Visible(r) == Visible(s)
    ensures Words(r) == Words(s)
  {
    var i := FirstDoubleSpace(s);
    if i == -1 then s
    else
      var j := RunEnd(s, i);
      ReplaceRunKeepsText(s, i, j, s[j..]);
      ReplaceRunKeepsWords(s, i, j, s[j..]);
      s[..i] + " " + s[j..]
  }

  /** A run made only of whitespace has no visible text. */
  lemma {:induction false} VisibleOfSpaces(w: string)
    requires forall k :: 0 <= k < |w| ==> IsSpace(w[k])
    ensures Visible(w) == []
  {
    if w != [] {
      VisibleOfSpaces(w[1..]);
    }
  }

  /** No two whitespace characters stand side by side in `s`. */
  predicate NoDoubleSpace(s: string) {
    forall k :: 0 <= k < |s| - 1 ==> !(IsSpace(s[k]) && IsSpace(s[k + 1]))
  }

  /** Joining two such texts with one space between non-space ends keeps the property. */
  lemma JoinWithSpace(p: string, rest: string)
    requires NoDoubleSpace(p) && (p == [] || !IsSpace(p[|p| - 1]))
    requires NoDoubleSpace(rest) && (rest == [] || !IsSpace(rest[0]))
    ensures NoDoubleSpace(p + " " + rest)
  {
    var r := p + " " + rest;
    forall k | 0 <= k < |r| - 1
      ensures !(IsSpace(r[k]) && IsSpace(r[k + 1]))
    {
      if k < |p| - 1 {
        assert r[k] == p[k] && r[k + 1] == p[k + 1];
      } else if k == |p| - 1 {
        assert r[k] == p[|p| - 1];
      } else if k == |p| {
        assert r[k + 1] == rest[0];
      } else {
        assert r[k] == rest[k - |p| - 1] && r[k + 1] == rest[k - |p|];
      }
    }
  }

  /** A piece cut out of a text without double spaces has none either. */
  lemma SliceNoDoubleSpace(c: string, a: nat, b: nat)
    requires a <= b <= |c| && NoDoubleSpace(c)
    ensures NoDoubleSpace(c[a..b])
  {
    var r := c[a..b];
    forall k | 0 <= k < |r| - 1
      ensures !(IsSpace(r[k]) && IsSpace(r[k + 1]))
    {
      assert r[k] == c[a + k] && r[k + 1] == c[a + k + 1];
    }
  }

  /**
   * `.replace(/\s{2,}/g, ' ')`: every run of two or more whitespace
   * characters becomes one space, so no two whitespace characters remain
   * side by side and the visible text is unchanged.
   */
  function CollapseAll(s: string): (r: string)
    ensures Visible(r) == Visible(s)
    ensures Words(r) == Words(s)
    ensures NoDoubleSpace(r)
    ensures |r| > 0 && IsSpace(r[0]) ==> |s| > 0 && IsSpace(s[0])
    decreases |s|
  {
    var i := FirstDoubleSpace(s);
    if i == -1 then s
    else
      var j := RunEnd(s, i);
      var rest := CollapseAll(s[j..]);
      ReplaceRunKeepsText(s, i, j, rest);
      ReplaceRunKeepsWords(s, i, j, rest);
      CollapseStep(s, i, j, rest);
      s[..i] + " " + rest
  }

  /** One step of `CollapseAll`: the run `s[i..j]` becomes one space. */
  lemma CollapseStep(s: string, i: nat, j: nat, rest: string)
    requires i + 1 < j <= |s| && (j == |s| || !IsSpace(s[j]))
    requires forall k :: i <= k < j ==> IsSpace(s[k])
    requires forall k :: 0 <= k < i ==> !(IsSpace(s[k]) && IsSpace(s[k + 1]))
    requires NoDoubleSpace(rest)
    requires |rest| > 0 && IsSpace(rest[0]) ==> |s[j..]| > 0 && IsSpace(s[j..][0])
    ensures NoDoubleSpace(s[..i] + " " + rest)
    ensures IsSpace((s[..i] + " " + rest)[0]) ==> IsSpace(s[0])
  {
    var p := s[..i];
    assert p != [] ==> !IsSpace(p[|p| - 1]) by {
      if p != [] {
        assert p[|p| - 1] == s[i - 1];
        assert IsSpace(s[i]);
        assert !IsSpace(s[i - 1]);
      }
    }
    assert rest != [] ==> !IsSpace(rest[0]);
    assert NoDoubleSpace(p) by {
      forall k | 0 <= k < |p| - 1
        ensures !(IsSpace(p[k]) && IsSpace(p[k + 1]))
      {
        assert p[k] == s[k] && p[k + 1] == s[k + 1];
      }
    }
    JoinWithSpace(p, rest);
    assert i == 0 ==> (p + " " + rest)[0] == ' ' && IsSpace(s[0]);
    assert i > 0 ==> (p + " " + rest)[0] == s[0];
  }

  lemma ReplaceRunKeepsText(s: string, i: nat, j: nat, rest: string)
    requires i <= j <= |s|
    requires forall k :: i <= k < j ==> IsSpace(s[k])
    requires Visible(rest) == Visible(s[j..])
    ensures Visible(s[..i] + " " + rest) == Visible(s)
  {
    VisibleOfSpaces(s[i..j]);
    VisibleAppend(s[..i], s[i..j]);
    VisibleAppend(s[..i] + s[i..j], s[j..]);
    VisibleAppend(s[..i], " ");
    VisibleAppend(s[..i] + " ", rest);
    assert Visible(" ") == [] by {
      assert IsSpace(' ');
      assert " "[1..] == [];
    }
    assert s == s[..i] + s[i..j] + s[j..];
  }

  /** The end of the run of visible characters starting at `i`. */
  function WordEnd(s: string, i: nat): (j: nat)
    requires i <= |s|
    ensures i <= j <= |s| && (j == |s| || IsSpace(s[j]))
    ensures forall k :: i <= k < j ==> !IsSpace(s[k])
    decreases |s| - i
  {
    if i < |s| && !IsSpace(s[i]) then WordEnd(s, i + 1) else i
  }

  /** The words of `s`: its maximal runs of visible characters, in order. */
  function Words(s: string): seq<string>
    decreases |s|
  {
    if s == [] then []
    else if IsSpace(s[0]) then Words(s[1..])
    else
      var j := WordEnd(s, 0);
      [s[..j]] + Words(s[j..])
  }

  /** A run of visible characters ends where the next whitespace is. */
  lemma WordEndIs(s: string, i: nat, j: nat)
    requires i <= j <= |s| && (j == |s| || IsSpace(s[j]))
    requires forall k :: i <= k < j ==> !IsSpace(s[k])
    ensures WordEnd(s, i) == j
    decreases j - i
  {
    if i < j {
      WordEndIs(s, i + 1, j);
    }
  }

  lemma {:induction false} WordsOfSpaces(w: string)
    requires forall k :: 0 <= k < |w| ==> IsSpace(w[k])
    ensures Words(w) == []
    decreases |w|
  {
    if w != [] {
      assert forall k :: 0 <= k < |w[1..]| ==> w[1..][k] == w[k + 1];
      WordsOfSpaces(w[1..]);
    }
  }

  /** Two pieces that meet at whitespace have the words of each, one after the other. */
  lemma {:induction false} WordsAppend(a: string, b: string)
    requires a == [] || b == [] || IsSpace(a[|a| - 1]) || IsSpace(b[0])
    ensures Words(a + b) == Words(a) + Words(b)
    decreases |a|
  {
    if a == [] {
      assert a + b == b;
    } else if IsSpace(a[0]) {
      assert a[1..] != [] ==> a[1..][|a[1..]| - 1] == a[|a| - 1];
      WordsAppend(a[1..], b);
      WordsAfterSpace(a, b);
    } else {
      var j := WordEnd(a, 0);
      if j < |a| {
        assert a[j..][|a[j..]| - 1] == a[|a| - 1];
        WordsAppend(a[j..], b);
        WordsAfterWord(a, b, j);
      } else {
        WordsOfOneWord(a, b);
      }
    }
  }

  lemma WordsAfterSpace(a: string, b: string)
    requires a != [] && IsSpace(a[0])
    ensures Words(a + b) == Words(a[1..] + b) && Words(a) == Words(a[1..])
  {
    assert (a + b)[1..] == a[1..] + b;
  }

  lemma WordsAfterWord(a: string, b: string, j: nat)
    requires 0 < j < |a| && IsSpace(a[j])
    requires forall k :: 0 <= k < j ==> !IsSpace(a[k])
    ensures Words(a + b) == [a[..j]] + Words(a[j..] + b)
    ensures Words(a) == [a[..j]] + Words(a[j..])
  {
    WordEndIs(a, 0, j);
    WordEndIs(a + b, 0, j);
    assert (a + b)[..j] == a[..j];
    assert (a + b)[j..] == a[j..] + b;
  }

  lemma WordsOfOneWord(a: string, b: string)
    requires a != [] && forall k :: 0 <= k < |a| ==> !IsSpace(a[k])
    requires b == [] || IsSpace(b[0])
    ensures Words(a + b) == Words(a) + Words(b)
  {
    LeadingWord(a, |a|);
    assert a[..|a|] == a && a[|a|..] == [];
    assert Words(a) == [a];
    if b != [] {
      var s := a + b;
      forall k | 0 <= k < |a| ensures !IsSpace(s[k]) {
        assert s[k] == a[k];
      }
      assert s[|a|] == b[0];
      LeadingWord(s, |a|);
      assert s[..|a|] == a && s[|a|..] == b;
      assert Words(s) == [a] + Words(b);
    } else {
      assert a + b == a;
    }
  }

  /** A string that starts with a word of length `j` has that word first. */
  lemma LeadingWord(s: string, j: nat)
    requires 0 < j <= |s| && (j == |s| || IsSpace(s[j]))
    requires forall k :: 0 <= k < j ==> !IsSpace(s[k])
    ensures Words(s) == [s[..j]] + Words(s[j..])
  {
    WordEndIs(s, 0, j);
  }

  /** Cutting a nonempty whitespace run out of a string joins the words on either side of it. */
  lemma WordsAcrossSpaces(head: string, run: string, tail: string)
    requires run != [] && forall k :: 0 <= k < |run| ==> IsSpace(run[k])
    ensures Words(head + run + tail) == Words(head) + Words(tail)
  {
    SpacesThenWords(run, tail);
    WordsAppend(head, run + tail);
    assert head + run + tail == head + (run + tail);
  }

  /** A nonempty whitespace run in front of a string adds no words. */
  lemma SpacesThenWords(run: string, tail: string)
    requires run != [] && forall k :: 0 <= k < |run| ==> IsSpace(run[k])
    ensures IsSpace((run + tail)[0]) && Words(run + tail) == Words(tail)
  {
    assert IsSpace(run[|run| - 1]) && (run + tail)[0] == run[0];
    WordsOfSpaces(run);
    WordsAppend(run, tail);
  }

  /** Replacing a nonempty whitespace run by one space keeps the words. */
  lemma ReplaceRunKeepsWords(s: string, i: nat, j: nat, rest: string)
    requires i < j <= |s|
    requires forall k :: i <= k < j ==> IsSpace(s[k])
    requires Words(rest) == Words(s[j..])
    ensures Words(s[..i] + " " + rest) == Words(s)
  {
    var head, run, tail := s[..i], s[i..j], s[j..];
    forall k | 0 <= k < |run| ensures IsSpace(run[k]) {
      assert run[k] == s[i + k];
    }
    assert IsSpace(" "[0]);
    SplitThree(s, i, j);
    WordsAcrossSpaces(head, run, tail);
    WordsAcrossSpaces(head, " ", rest);
  }

  lemma WordsBetweenSpaces(head: string, mid: string, tail: string)
    requires forall k :: 0 <= k < |head| ==> IsSpace(head[k])
    requires forall k :: 0 <= k < |tail| ==> IsSpace(tail[k])
    ensures Words(head + mid + tail) == Words(mid)
  {
    WordsOfSpaces(head);
    WordsOfSpaces(tail);
    WordsAppend(head, mid);
    WordsAppend(head + mid, tail);
  }

  /** `.trim()`: drops whitespace at both ends. */
  function Trim(s: string): (r: string)
    ensures Visible(r) == Visible(s)
    ensures Words(r) == Words(s)
    ensures r != [] ==> !IsSpace(r[0]) && !IsSpace(r[|r| - 1])
    ensures exists a, b :: 0 <= a <= b <= |s| && r == s[a..b]
  {
    var a := LeadingSpaces(s, 0);
    var b := TrailingEnd(s, |s|, a);
    TrimKeepsText(s, a, b);
    s[a..b]
  }

  /** Cutting whitespace off both ends keeps the visible text. */
  lemma TrimKeepsText(s: string, a: nat, b: nat)
    requires a <= b <= |s|
    requires forall k :: 0 <= k < a ==> IsSpace(s[k])
    requires forall k :: b <= k < |s| ==> IsSpace(s[k])
    ensures Visible(s[a..b]) == Visible(s)
    ensures Words(s[a..b]) == Words(s)
  {
    var head, mid, tail := s[..a], s[a..b], s[b..];
    forall k | 0 <= k < |head| ensures IsSpace(head[k]) {
      assert head[k] == s[k];
    }
    forall k | 0 <= k < |tail| ensures IsSpace(tail[k]) {
      assert tail[k] == s[b + k];
    }
    SplitThree(s, a, b);
    VisibleBetweenSpaces(head, mid, tail);
    WordsBetweenSpaces(head, mid, tail);
  }

  lemma SplitThree(s: string, a: nat, b: nat)
    requires a <= b <= |s|
    ensures s == s[..a] + s[a..b] + s[b..]
  {
  }

  lemma VisibleBetweenSpaces(head: string, mid: string, tail: string)
    requires forall k :: 0 <= k < |head| ==> IsSpace(head[k])
    requires forall k :: 0 <= k < |tail| ==> IsSpace(tail[k])
    ensures Visible(head + mid + tail) == Visible(mid)
  {
    VisibleOfSpaces(head);
    VisibleOfSpaces(tail);
    VisibleAppend(head, mid);
    VisibleAppend(head + mid, tail);
  }

  function LeadingSpaces(s: string, i: nat): (a: nat)
    requires i <= |s|
    requires forall k :: 0 <= k < i ==> IsSpace(s[k])
    ensures i <= a <= |s| && (a == |s| || !IsSpace(s[a]))
    ensures forall k :: 0 <= k < a ==> IsSpace(s[k])
    decreases |s| - i
  {
    if i < |s| && IsSpace(s[i]) then LeadingSpaces(s, i + 1) else i
  }

  function TrailingEnd(s: string, j: nat, a: nat): (b: nat)
    requires a <= j <= |s|
    requires a == |s| || !IsSpace(s[a])
    requires forall k :: j <= k < |s| ==> IsSpace(s[k])
    ensures a <= b <= j && (b == a || !IsSpace(s[b - 1]))
    ensures forall k :: b <= k < |s| ==> IsSpace(s[k])
    ensures b == a ==> a == |s|
    decreases j
  {
    if j > a && IsSpace(s[j - 1]) then TrailingEnd(s, j - 1, a) else j
  }

  /** The tidying step of `formatDateTime` exactly as the source writes it. */
  function TidyAsWritten(rendered: string): (r: string)
    ensures Visible(r) == Visible(rendered)
    ensures Words(r) == Words(SpaceWords(rendered))
    ensures r != [] ==> !IsSpace(r[0]) && !IsSpace(r[|r| - 1])
  {
    SpaceWordsKeepsText(rendered, 0);
    Trim(CollapseFirst(SpaceWords(rendered)))
  }

  /**
   * Without the `g` flag the runs of spaces that the word spacing creates
   * survive after the first one: "a b c" comes out as "a b   c".
   */
  lemma TidyAsWrittenLeavesRuns()
    ensures TidyAsWritten("a b c") == "a b   c"
  {
    SpaceWordsOfSample();
    CollapseFirstOfSample();
    TrimOfSample();
  }

  /**
   * For every input: when the spaced rendering has a second run of two
   * whitespace characters after the first one, with visible text after it,
   * the tidied text as written still has two whitespace characters in a row.
   */
  lemma TidyAsWrittenKeepsLaterRuns(rendered: string, k: nat, m: nat)
    requires var t := SpaceWords(rendered);
      FirstDoubleSpace(t) >= 0 && RunEnd(t, FirstDoubleSpace(t)) <= k &&
      k + 1 < m < |t| && IsSpace(t[k]) && IsSpace(t[k + 1]) && !IsSpace(t[m])
    ensures !NoDoubleSpace(TidyAsWritten(rendered))
  {
    LaterRunSurvives(SpaceWords(rendered), k, m);
  }

  /** A run after the first one, followed by visible text, survives collapsing the first run and trimming. */
  lemma LaterRunSurvives(t: string, k: nat, m: nat)
    requires FirstDoubleSpace(t) >= 0 && RunEnd(t, FirstDoubleSpace(t)) <= k
    requires k + 1 < m < |t| && IsSpace(t[k]) && IsSpace(t[k + 1]) && !IsSpace(t[m])
    ensures !NoDoubleSpace(Trim(CollapseFirst(t)))
  {
    var i := FirstDoubleSpace(t);
    var j := RunEnd(t, i);
    assert CollapseFirst(t) == t[..i] + " " + t[j..];
    SplicedRunSurvives(t, i, j, k, m);
  }

  /** The same for any run `s[i..j]` replaced by one space, with visible text at `j`. */
  lemma SplicedRunSurvives(s: string, i: nat, j: nat, k: nat, m: nat)
    requires i < j < k && k + 1 < m < |s|
    requires !IsSpace(s[j]) && IsSpace(s[k]) && IsSpace(s[k + 1]) && !IsSpace(s[m])
    ensures !NoDoubleSpace(Trim(s[..i] + " " + s[j..]))
  {
    SpliceAt(s, i, j, j);
    SpliceAt(s, i, j, k);
    SpliceAt(s, i, j, k + 1);
    SpliceAt(s, i, j, m);
    TrimKeepsInnerRun(s[..i] + " " + s[j..], i + 1, k + i + 1 - j, m + i + 1 - j);
  }

  /** Where a character at or after the cut ends up once `s[i..j]` is replaced by one space. */
  lemma SpliceAt(s: string, i: nat, j: nat, p: nat)
    requires i < j <= p < |s|
    ensures (s[..i] + " " + s[j..])[p + i + 1 - j] == s[p]
  {
  }

  /** Two whitespace characters with visible text on both sides are kept by `trim`. */
  lemma TrimKeepsInnerRun(c: string, x: nat, q: nat, y: nat)
    requires x < q && q + 1 < y < |c|
    requires !IsSpace(c[x]) && !IsSpace(c[y]) && IsSpace(c[q]) && IsSpace(c[q + 1])
    ensures !NoDoubleSpace(Trim(c))
  {
    var a := LeadingSpaces(c, 0);
    var b := TrailingEnd(c, |c|, a);
    assert a <= x && y < b;
    DoubleSpaceInSlice(c, a, b, q);
  }

  lemma DoubleSpaceInSlice(c: string, a: nat, b: nat, q: nat)
    requires a <= q && q + 1 < b <= |c| && IsSpace(c[q]) && IsSpace(c[q + 1])
    ensures !NoDoubleSpace(c[a..b])
  {
    assert c[a..b][q - a] == c[q] && c[a..b][q - a + 1] == c[q + 1];
  }

  lemma SpaceWordsOfSample()
    ensures SpaceWords("a b c") == " a   b   c "
  {
    var s := "a b c";
    assert SpacedAt(s, 4) == " c ";
    assert SpacedAt(s, 3) == " ";
    assert SpacedAt(s, 2) == " b ";
    assert SpacedAt(s, 1) == " ";
    assert SpacedAt(s, 0) == " a ";
    assert SpaceWordsFrom(s, 5) == "";
    assert SpaceWordsFrom(s, 4) == " c ";
    assert SpaceWordsFrom(s, 3) == "  c ";
    assert SpaceWordsFrom(s, 2) == " b   c ";
    assert SpaceWordsFrom(s, 1) == "  b   c ";
    assert SpaceWordsFrom(s, 0) == " a   b   c ";
  }

  lemma CollapseFirstOfSample()
    ensures CollapseFirst(" a   b   c ") == " a b   c "
  {
    var spaced := " a   b   c ";
    FirstDoubleSpaceOfSample();
    RunEndOfSample();
    CollapseFirstAt(spaced, 2, 5);
    SpliceOfSample();
  }

  lemma SpliceOfSample()
    ensures var spaced := " a   b   c "; spaced[..2] + " " + spaced[5..] == " a b   c "
  {
    var spaced := " a   b   c ";
    assert spaced[..2] == " a" && spaced[5..] == "b   c ";
  }

  /** Where the first run starts and ends decides what `CollapseFirst` gives. */
  lemma CollapseFirstAt(s: string, i: nat, j: nat)
    requires i <= |s| && FirstDoubleSpace(s) == i && RunEnd(s, i) == j
    ensures CollapseFirst(s) == s[..i] + " " + s[j..]
  {
  }

  lemma FirstDoubleSpaceOfSample()
    ensures FirstDoubleSpace(" a   b   c ") == 2
  {
    var spaced := " a   b   c ";
    assert spaced[0] == ' ' && spaced[1] == 'a' && spaced[2] == ' ' && spaced[3] == ' ';
    assert !IsSpace('a') && IsSpace(' ');
    var t := spaced[2..];
    assert t[0] == ' ' && t[1] == ' ';
    assert FirstDoubleSpace(t) == 0;
    var u := spaced[1..];
    assert u[0] == 'a' && u[1..] == t;
    assert FirstDoubleSpace(u) == 1;
  }

  lemma RunEndOfSample()
    ensures RunEnd(" a   b   c ", 2) == 5
  {
    var spaced := " a   b   c ";
    assert spaced[2] == ' ' && spaced[3] == ' ' && spaced[4] == ' ' && spaced[5] == 'b';
    assert !IsSpace('b') && IsSpace(' ');
    assert RunEnd(spaced, 5) == 5;
    assert RunEnd(spaced, 4) == 5;
    assert RunEnd(spaced, 3) == 5;
  }

  lemma TrimOfSample()
    ensures Trim(" a b   c ") == "a b   c"
  {
    var t := " a b   c ";
    assert t[0] == ' ' && t[1] == 'a' && t[7] == 'c' && t[8] == ' ';
    assert !IsSpace('a') && !IsSpace('c') && IsSpace(' ');
    assert LeadingSpaces(t, 1) == 1;
    assert LeadingSpaces(t, 0) == 1;
    assert TrailingEnd(t, 8, 1) == 8;
    assert TrailingEnd(t, 9, 1) == 8;
    assert t[1..8] == "a b   c";
  }

  /**
   * The tidying step with every run collapsed: words stand apart from the
   * punctuation around them, the visible text is kept, there is no
   * whitespace at either end and never two whitespace characters in a row.
   */
  function Tidy(rendered: string): (r: string)
    ensures Visible(r) == Visible(rendered)
    ensures Words(r) == Words(SpaceWords(rendered))
    ensures r != [] ==> !IsSpace(r[0]) && !IsSpace(r[|r| - 1])
    ensures NoDoubleSpace(r)
  {
    SpaceWordsKeepsText(rendered, 0);
    var c := CollapseAll(SpaceWords(rendered));
    var r := Trim(c);
    var a, b :| 0 <= a <= b <= |c| && r == c[a..b];
    SliceNoDoubleSpace(c, a, b);
    r
  }

  /**
   * The text `formatDateTime` produces, given how the platform renders a set
   * of options: the rendering tidied exactly as the source writes it.
   */
  function FormatDateTime(date: CivilDate, now: CivilDate, full: bool, render: LocaleOptions -> string): (r: string)
    ensures Visible(r) == Visible(render(RequestedOptions(date, now, full)))
    ensures Words(r) == Words(SpaceWords(render(RequestedOptions(date, now, full))))
    ensures r != [] ==> !IsSpace(r[0]) && !IsSpace(r[|r| - 1])
  {
    TidyAsWritten(render(RequestedOptions(date, now, full)))
  }

  /** `formatDateTime` as it is evidently meant to work, with every whitespace run collapsed. */
  function FormatDateTimeIntended(date: CivilDate, now: CivilDate, full: bool, render: LocaleOptions -> string): (r: string)
    ensures Visible(r) == Visible(render(RequestedOptions(date, now, full)))
    ensures Words(r) == Words(SpaceWords(render(RequestedOptions(date, now, full))))
    ensures r != [] ==> !IsSpace(r[0]) && !IsSpace(r[|r| - 1])
    ensures NoDoubleSpace(r)
  {
    Tidy(render(RequestedOptions(date, now, full)))
  }
}
