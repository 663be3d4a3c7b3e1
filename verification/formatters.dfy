/**
 * The display formatters of the client (client/src/utils/formatters.js) that
 * work on strings and records: phone numbers, truncation, name
 * capitalisation, initials, stage labels, search-query normalisation and
 * URL-parameter filtering.
 */
module Formatters {
  import opened JsValues
  import opened JsStrings

  // ---------------------------------------------------------------------------
  // formatPhoneNumber

  /** `formatPhoneNumber`: ten digits become `(ddd) ddd-dddd`, eleven digits
      starting with 1 become `+1 (ddd) ddd-dddd`, anything else is returned
      as given. */
  function FormatPhoneNumber(phone: string): (r: string)
    ensures phone == "" ==> r == ""
    ensures phone != "" && |Digits(phone)| == 10 ==>
      var d := Digits(phone);
      |r| == 14 && r[0] == '(' && r[1..4] == d[..3] && r[4..6] == ") "
      && r[6..9] == d[3..6] && r[9] == '-' && r[10..] == d[6..]
    ensures phone != "" && |Digits(phone)| == 11 && Digits(phone)[0] == '1' ==>
      var d := Digits(phone);
      |r| == 17 && r[..4] == "+1 (" && r[4..7] == d[1..4] && r[7..9] == ") "
      && r[9..12] == d[4..7] && r[12] == '-' && r[13..] == d[7..]
    ensures !(|Digits(phone)| == 10 || (|Digits(phone)| == 11 && Digits(phone)[0] == '1')) ==> r == phone
  {
    if phone == "" then ""
    else
      var cleaned := Digits(phone);
      if |cleaned| == 10 then
        "(" + cleaned[..3] + ") " + cleaned[3..6] + "-" + cleaned[6..]
      else if |cleaned| == 11 && cleaned[0] == '1' then
        "+1 (" + cleaned[1..4] + ") " + cleaned[4..7] + "-" + cleaned[7..]
      else phone
  }

  /** Digits interleaved with punctuation: the digit string is the
      punctuation's digits and the digit groups, in order. */
  lemma {:induction false} LayoutDigits(a: string, x: string, b: string, y: string, c: string, z: string)
    requires forall i :: 0 <= i < |x| ==> IsDigit(x[i])
    requires forall i :: 0 <= i < |y| ==> IsDigit(y[i])
    requires forall i :: 0 <= i < |z| ==> IsDigit(z[i])
    ensures Digits(a + x + b + y + c + z) == Digits(a) + x + Digits(b) + y + Digits(c) + z
  {
    DigitsOfDigits(x);
    DigitsOfDigits(y);
    DigitsOfDigits(z);
    DigitsAppend(a, x);
    DigitsAppend(a + x, b);
    DigitsAppend(a + x + b, y);
    DigitsAppend(a + x + b + y, c);
    DigitsAppend(a + x + b + y + c, z);
  }

  /** The punctuation a formatted number adds carries no digit except the
      country code: formatting keeps the digit string of the input. */
  lemma PhoneDigitsPreserved(phone: string)
    ensures Digits(FormatPhoneNumber(phone)) == Digits(phone)
  {
    var cleaned := Digits(phone);
    if phone != "" && |cleaned| == 10 {
      LayoutDigits("(", cleaned[..3], ") ", cleaned[3..6], "-", cleaned[6..]);
      assert Digits("(") == "" && Digits(") ") == "" && Digits("-") == "";
      assert cleaned[..3] + cleaned[3..6] + cleaned[6..] == cleaned;
    } else if phone != "" && |cleaned| == 11 && cleaned[0] == '1' {
      LayoutDigits("+1 (", cleaned[1..4], ") ", cleaned[4..7], "-", cleaned[7..]);
      assert Digits("+1 (") == "1" && Digits(") ") == "" && Digits("-") == "";
      assert "1" + cleaned[1..4] + cleaned[4..7] + cleaned[7..] == cleaned;
    }
  }

  /** Formatting an already formatted number changes nothing. */
  lemma PhoneIdempotent(phone: string)
    ensures FormatPhoneNumber(FormatPhoneNumber(phone)) == FormatPhoneNumber(phone)
  {
    PhoneDigitsPreserved(phone);
  }

  // ---------------------------------------------------------------------------
  // truncateText

  /** The defaults of `truncateText`. */
  const DefaultMaxLength: int := 50
  const DefaultSuffix: string := "..."

  /** `truncateText(text, maxLength, suffix)`: text within the limit comes
      back as is; longer text is cut with `slice(0, maxLength - suffix.length)`
      and the suffix appended. */
  function TruncateText(text: string, maxLength: int, suffix: string): (r: string)
    ensures text == "" || |text| <= maxLength ==> r == text
    ensures text != "" && |text| > maxLength ==> |r| >= |suffix| && r[|r| - |suffix|..] == suffix
    ensures text != "" && |text| > maxLength ==> r[..|r| - |suffix|] <= text
    ensures text != "" && |text| > maxLength && maxLength >= |suffix| ==> |r| == maxLength
    ensures text != "" && |text| > maxLength && maxLength < |suffix| ==>
      |r| == SliceIndex(|text|, maxLength - |suffix|) + |suffix|
  {
    if text == "" || |text| <= maxLength then text
    else
      var kept := Slice(text, 0, maxLength - |suffix|);
      assert kept == text[..|kept|];
      kept + suffix
  }

  /** A limit shorter than the suffix makes the slice end negative, which
      `slice` counts from the end of the text: the result is then longer than
      the limit, here longer than the input itself. */
  lemma TruncateShortLimit()
    ensures TruncateText("abcdef", 2, DefaultSuffix) == "abcde..."
  {
    assert Slice("abcdef", 0, -1) == "abcde";
  }

  // ---------------------------------------------------------------------------
  // formatName

  /** `word.charAt(0).toUpperCase() + word.slice(1).toLowerCase()` */
  function Capitalize(w: string): (r: string)
    ensures |r| == |w|
    ensures w != "" ==> r[0] == ToUpper(w[0])
    ensures forall i :: 1 <= i < |w| ==> r[i] == ToLower(w[i])
  {
    UpperCase(CharAt0(w)) + LowerCase(Slice(w, 1, |w|))
  }

  /** `words.map(Capitalize)` */
  function CapitalizeAll(ws: seq<string>): (r: seq<string>)
    ensures |r| == |ws|
    ensures forall i :: 0 <= i < |ws| ==> r[i] == Capitalize(ws[i])
  {
    seq(|ws|, i requires 0 <= i < |ws| => Capitalize(ws[i]))
  }

  /** `formatName`: each space-separated word capitalised. */
  function FormatName(name: string): (r: string)
  {
    if name == "" then "" else Join(CapitalizeAll(Split(name, ' ')), " ")
  }

  /** Capitalising neither adds nor removes spaces. */
  lemma CapitalizeSpaceFree(w: string)
    requires ' ' !in w
    ensures ' ' !in Capitalize(w)
  {
    var r := Capitalize(w);
    forall i | 0 <= i < |r|
      ensures r[i] != ' '
    {
      assert w[i] in w;
    }
  }

  lemma {:induction false} CapitalizeAllLength(ws: seq<string>)
    ensures TotalLength(CapitalizeAll(ws)) == TotalLength(ws)
  {
    if ws != [] {
      CapitalizeAllLength(ws[1..]);
      assert CapitalizeAll(ws)[1..] == CapitalizeAll(ws[1..]);
    }
  }

  /** The words of the result are the input's words, capitalised, and as
      many: nothing is merged or split, and the length is unchanged. */
  lemma FormatNameWords(name: string)
    requires name != ""
    ensures Split(FormatName(name), ' ') == CapitalizeAll(Split(name, ' '))
    ensures |Split(FormatName(name), ' ')| == |Split(name, ' ')|
    ensures |FormatName(name)| == |name|
  {
    var ws := Split(name, ' ');
    var cs := CapitalizeAll(ws);
    forall i | 0 <= i < |cs|
      ensures ' ' !in cs[i]
    {
      CapitalizeSpaceFree(ws[i]);
    }
    SplitJoin(cs, ' ');
    JoinSplit(name, ' ');
    JoinLength(ws, " ");
    JoinLength(cs, " ");
    CapitalizeAllLength(ws);
  }

  /** Capitalising twice is capitalising once. */
  lemma CapitalizeIdempotent(w: string)
    ensures Capitalize(Capitalize(w)) == Capitalize(w)
  {
    var c := Capitalize(w);
    var cc := Capitalize(c);
    forall i | 0 <= i < |c|
      ensures cc[i] == c[i]
    {
      CaseIdempotent(w[i]);
    }
    SameChars(cc, c);
  }

  lemma CaseIdempotent(ch: char)
    ensures ToUpper(ToUpper(ch)) == ToUpper(ch)
    ensures ToLower(ToLower(ch)) == ToLower(ch)
  {
  }

  lemma SameChars(a: string, b: string)
    requires |a| == |b|
    requires forall i :: 0 <= i < |a| ==> a[i] == b[i]
    ensures a == b
  {
  }

  /** Formatting a formatted name changes nothing. */
  lemma FormatNameIdempotent(name: string)
    ensures FormatName(FormatName(name)) == FormatName(name)
  {
    if name != "" {
      FormatNameWords(name);
      var cs := CapitalizeAll(Split(name, ' '));
      forall i | 0 <= i < |cs|
        ensures CapitalizeAll(cs)[i] == cs[i]
      {
        CapitalizeIdempotent(Split(name, ' ')[i]);
      }
      assert CapitalizeAll(cs) == cs;
    }
  }

  // ---------------------------------------------------------------------------
  // getInitials

  /** The default of `getInitials`. */
  const DefaultMaxInitials: int := 2

  /** `words.map(word => word.charAt(0).toUpperCase())` */
  function InitialsOf(ws: seq<string>): (r: seq<string>)
    ensures |r| == |ws|
    ensures forall i :: 0 <= i < |ws| ==> r[i] == UpperCase(CharAt0(ws[i]))
  {
    seq(|ws|, i requires 0 <= i < |ws| => UpperCase(CharAt0(ws[i])))
  }

  /** `getInitials(name, maxInitials)`: the upper-cased first characters of
      the leading words of the trimmed name. */
  function GetInitials(name: string, maxInitials: int): (r: string)
  {
    if name == "" then ""
    else
      var words := Split(Trim(name), ' ');
      Join(InitialsOf(Slice(words, 0, maxInitials)), "")
  }

  lemma {:induction false} ShortPiecesJoin(ws: seq<string>)
    requires forall i :: 0 <= i < |ws| ==> |ws[i]| <= 1
    ensures |Join(ws, "")| <= |ws|
  {
    if |ws| > 1 {
      ShortPiecesJoin(ws[1..]);
    }
  }

  lemma {:induction false} SingletonsJoin(ws: seq<string>)
    requires forall i :: 0 <= i < |ws| ==> |ws[i]| == 1
    ensures |Join(ws, "")| == |ws|
    ensures forall i :: 0 <= i < |ws| ==> Join(ws, "")[i] == ws[i][0]
  {
    if |ws| > 1 {
      SingletonsJoin(ws[1..]);
      assert Join(ws, "") == ws[0] + Join(ws[1..], "");
    }
  }

  /** The words of `ws` that are not empty, in their order: the pieces that
      contribute an initial. */
  function NonEmptyWords(ws: seq<string>): (r: seq<string>)
    ensures |r| <= |ws|
    ensures forall i :: 0 <= i < |r| ==> r[i] != "" && r[i] in ws
    ensures (forall i :: 0 <= i < |ws| ==> ws[i] != "") ==> r == ws
  {
    if ws == [] then []
    else if ws[0] == "" then NonEmptyWords(ws[1..])
    else [ws[0]] + NonEmptyWords(ws[1..])
  }

  /** The filter works piece by piece: it keeps the order and drops only
      the empty pieces. */
  lemma {:induction false} NonEmptyWordsAppend(a: seq<string>, b: seq<string>)
    ensures NonEmptyWords(a + b) == NonEmptyWords(a) + NonEmptyWords(b)
    ensures NonEmptyWords([""]) == [] && forall w :: w != "" ==> NonEmptyWords([w]) == [w]
    decreases |a|
  {
    if a != [] {
      assert (a + b)[1..] == a[1..] + b;
      NonEmptyWordsAppend(a[1..], b);
    } else {
      assert a + b == b;
    }
  }

  lemma JoinFirst(ws: seq<string>)
    requires ws != []
    ensures Join(ws, "") == ws[0] + Join(ws[1..], "")
  {
    if |ws| == 1 {
      assert ws[0] + "" == ws[0];
    }
  }

  /** Empty pieces vanish from a join without separator. */
  lemma {:induction false} JoinDropEmpty(ws: seq<string>)
    ensures Join(ws, "") == Join(NonEmptyWords(ws), "")
    decreases |ws|
  {
    if ws != [] {
      JoinFirst(ws);
      JoinDropEmpty(ws[1..]);
      var kept := NonEmptyWords(ws);
      if ws[0] == "" {
        assert "" + Join(ws[1..], "") == Join(ws[1..], "");
      } else {
        assert kept[0] == ws[0] && kept[1..] == NonEmptyWords(ws[1..]);
        JoinFirst(kept);
      }
    }
  }

  lemma InitialsOfAppend(a: seq<string>, b: seq<string>)
    ensures InitialsOf(a + b) == InitialsOf(a) + InitialsOf(b)
  {
  }

  /** A word has an empty initial exactly when it is empty itself. */
  lemma InitialOfOne(w: string)
    ensures NonEmptyWords(InitialsOf([w])) == InitialsOf(NonEmptyWords([w]))
  {
    NonEmptyWordsAppend([], []);
    var i := InitialsOf([w]);
    assert |i[0]| == |CharAt0(w)|;
    if w == "" {
      assert i == [""];
      assert InitialsOf([]) == [];
    } else {
      assert i[0] != "";
    }
  }

  /** Dropping empty pieces commutes with taking initials. */
  lemma {:induction false} NonEmptyInitials(ws: seq<string>)
    ensures NonEmptyWords(InitialsOf(ws)) == InitialsOf(NonEmptyWords(ws))
    decreases |ws|
  {
    if ws != [] {
      var h, t := [ws[0]], ws[1..];
      assert ws == h + t;
      NonEmptyInitials(t);
      calc {
        NonEmptyWords(InitialsOf(ws));
        { InitialsOfAppend(h, t); }
        NonEmptyWords(InitialsOf(h) + InitialsOf(t));
        { NonEmptyWordsAppend(InitialsOf(h), InitialsOf(t)); }
        NonEmptyWords(InitialsOf(h)) + NonEmptyWords(InitialsOf(t));
        { InitialOfOne(ws[0]); }
        InitialsOf(NonEmptyWords(h)) + InitialsOf(NonEmptyWords(t));
        { InitialsOfAppend(NonEmptyWords(h), NonEmptyWords(t)); }
        InitialsOf(NonEmptyWords(h) + NonEmptyWords(t));
        { NonEmptyWordsAppend(h, t); }
        InitialsOf(NonEmptyWords(ws));
      }
    }
  }

  /** At most `maxInitials` initials, exactly one per non-empty leading word
      (an empty piece, from two spaces in a row, gives none): the i-th
      character is the upper-cased first letter of the i-th non-empty
      leading word. When the leading words are all non-empty there is one
      initial per leading word. */
  lemma InitialsBound(name: string, maxInitials: int)
    requires name != ""
    ensures maxInitials >= 0 ==> |GetInitials(name, maxInitials)| <= maxInitials
    ensures var kept := NonEmptyWords(Slice(Split(Trim(name), ' '), 0, maxInitials));
      |GetInitials(name, maxInitials)| == |kept|
      && forall i :: 0 <= i < |kept| ==> GetInitials(name, maxInitials)[i] == ToUpper(kept[i][0])
    ensures var lead := Slice(Split(Trim(name), ' '), 0, maxInitials);
      (forall i :: 0 <= i < |lead| ==> lead[i] != "") ==>
        |GetInitials(name, maxInitials)| == |lead|
        && forall i :: 0 <= i < |lead| ==> GetInitials(name, maxInitials)[i] == ToUpper(lead[i][0])
  {
    var lead := Slice(Split(Trim(name), ' '), 0, maxInitials);
    var kept := NonEmptyWords(lead);
    ShortPiecesJoin(InitialsOf(lead));
    JoinDropEmpty(InitialsOf(lead));
    NonEmptyInitials(lead);
    SingletonsJoin(InitialsOf(kept));
  }

  /** The default arguments: `truncateText(text)` is at most 50 characters
      long and `getInitials(name)` at most two. */
  lemma DefaultLimits(text: string, name: string)
    ensures |TruncateText(text, DefaultMaxLength, DefaultSuffix)| <= 50
    ensures |GetInitials(name, DefaultMaxInitials)| <= 2
  {
    if name != "" {
      InitialsBound(name, DefaultMaxInitials);
    }
  }

  // ---------------------------------------------------------------------------
  // formatStageLabel

  /** `stageMap[stage]` */
  function StageMapLabel(stage: string): Option<string>
  {
    if stage == "new" then Some("New")
    else if stage == "in_progress" then Some("In Progress")
    else if stage == "negotiation" then Some("Negotiation")
    else if stage == "won" then Some("Won")
    else if stage == "lost" then Some("Lost")
    else None
  }

  /** `formatStageLabel`: 'Unknown' for a missing stage, the fixed label of a
      known stage, otherwise the stage with its first character upper-cased. */
  function FormatStageLabel(stage: string): (r: string)
    ensures r != ""
    ensures stage == "" ==> r == "Unknown"
    ensures stage != "" && StageMapLabel(stage).None? ==>
      |r| == |stage| && r[0] == ToUpper(stage[0]) && r[1..] == stage[1..]
  {
    if stage == "" then "Unknown"
    else
      var known := StageMapLabel(stage);
      if known.Some? then known.value
      else UpperCase(CharAt0(stage)) + Slice(stage, 1, |stage|)
  }

  // ---------------------------------------------------------------------------
  // formatSearchQuery

  /** `formatSearchQuery`: trimmed, with every whitespace run replaced by a
      single space. */
  function FormatSearchQuery(query: string): (r: string)
  {
    if query == "" then "" else CollapseSpaces(Trim(query))
  }

  /** The characters of `s` that are not whitespace, in order. */
  function NonSpace(s: string): (r: string)
  {
    if s == [] then []
    else if IsSpace(s[0]) then NonSpace(s[1..])
    else [s[0]] + NonSpace(s[1..])
  }

  /** `s` is in normal form: whitespace only as single ' ' characters. */
  predicate Normalized(s: string)
  {
    (forall i :: 0 <= i < |s| && IsSpace(s[i]) ==> s[i] == ' ')
    && (forall i :: 0 <= i < |s| - 1 ==> !(IsSpace(s[i]) && IsSpace(s[i + 1])))
  }

  lemma {:induction false} NonSpaceAppend(a: string, b: string)
    ensures NonSpace(a + b) == NonSpace(a) + NonSpace(b)
  {
    if a != [] {
      assert (a + b)[1..] == a[1..] + b;
      NonSpaceAppend(a[1..], b);
    } else {
      assert a + b == b;
    }
  }

  lemma {:induction false} NonSpaceOfSpaces(s: string)
    requires forall i :: 0 <= i < |s| ==> IsSpace(s[i])
    ensures NonSpace(s) == []
  {
    if s != [] {
      NonSpaceOfSpaces(s[1..]);
    }
  }

  lemma TrimStartNonSpace(s: string)
    ensures NonSpace(TrimStart(s)) == NonSpace(s)
  {
    var t := TrimStart(s);
    var dropped := s[..|s| - |t|];
    NonSpaceOfSpaces(dropped);
    assert s == dropped + t;
    NonSpaceAppend(dropped, t);
  }

  lemma TrimEndNonSpace(s: string)
    ensures NonSpace(TrimEnd(s)) == NonSpace(s)
  {
    var t := TrimEnd(s);
    var dropped := s[|t|..];
    NonSpaceOfSpaces(dropped);
    assert s == t + dropped;
    NonSpaceAppend(t, dropped);
  }

  /** Trimming drops whitespace only. */
  lemma TrimNonSpace(s: string)
    ensures NonSpace(Trim(s)) == NonSpace(s)
  {
    TrimStartNonSpace(s);
    TrimEndNonSpace(TrimStart(s));
  }

  /** Collapsing keeps every non-whitespace character, in order. */
  lemma {:induction false} CollapseNonSpace(s: string)
    ensures NonSpace(CollapseSpaces(s)) == NonSpace(s)
    decreases |s|
  {
    if s != [] {
      if IsSpace(s[0]) {
        var t := TrimStart(s[1..]);
        CollapseNonSpace(t);
        TrimStartNonSpace(s[1..]);
        assert CollapseSpaces(s) == [' '] + CollapseSpaces(t);
      } else {
        CollapseNonSpace(s[1..]);
        assert CollapseSpaces(s) == [s[0]] + CollapseSpaces(s[1..]);
      }
    }
  }

  /** Collapsing empties only the empty string, and starts or ends with
      whitespace exactly where its input does. */
  lemma {:induction false} CollapseEnds(s: string)
    ensures (CollapseSpaces(s) == []) == (s == [])
    ensures s != [] ==> (IsSpace(CollapseSpaces(s)[0]) <==> IsSpace(s[0]))
    ensures s != [] ==> (IsSpace(CollapseSpaces(s)[|CollapseSpaces(s)| - 1]) <==> IsSpace(s[|s| - 1]))
    decreases |s|
  {
    if s != [] {
      if IsSpace(s[0]) {
        var t := TrimStart(s[1..]);
        CollapseEnds(t);
        assert CollapseSpaces(s) == [' '] + CollapseSpaces(t);
        if t == [] {
          if |s| > 1 {
            assert s[|s| - 1] == s[1..][|s| - 2];
          }
        } else {
          assert s[|s| - 1] == t[|t| - 1];
        }
      } else {
        CollapseEnds(s[1..]);
        assert CollapseSpaces(s) == [s[0]] + CollapseSpaces(s[1..]);
      }
    }
  }

  /** Collapsing leaves whitespace only as single ' ' characters. */
  lemma {:induction false} CollapseNormal(s: string)
    ensures Normalized(CollapseSpaces(s))
    decreases |s|
  {
    if s != [] {
      var r := CollapseSpaces(s);
      var c := if IsSpace(s[0]) then CollapseSpaces(TrimStart(s[1..])) else CollapseSpaces(s[1..]);
      if IsSpace(s[0]) {
        CollapseNormal(TrimStart(s[1..]));
        CollapseEnds(TrimStart(s[1..]));
      } else {
        CollapseNormal(s[1..]);
      }
      assert r == [r[0]] + c;
      forall i | 0 <= i < |r| - 1
        ensures !(IsSpace(r[i]) && IsSpace(r[i + 1]))
      {
        if i > 0 {
          assert r[i] == c[i - 1] && r[i + 1] == c[i];
        }
      }
    }
  }

  /** A normalized string is its own collapse. */
  lemma {:induction false} CollapseNormalized(s: string)
    requires Normalized(s)
    ensures CollapseSpaces(s) == s
    decreases |s|
  {
    if s != [] {
      assert Normalized(s[1..]) by {
        forall i | 0 <= i < |s[1..]| - 1
          ensures !(IsSpace(s[1..][i]) && IsSpace(s[1..][i + 1]))
        {
          assert s[1..][i] == s[i + 1] && s[1..][i + 1] == s[i + 2];
        }
      }
      if IsSpace(s[0]) {
        assert s[1..] == [] || !IsSpace(s[1..][0]);
        assert TrimStart(s[1..]) == s[1..];
      }
      CollapseNormalized(s[1..]);
      assert s == [s[0]] + s[1..];
    }
  }

  /** The normalised query: no whitespace at either end, only single spaces
      inside, the same non-whitespace characters in the same order. */
  lemma SearchQueryNormal(query: string)
    ensures var r := FormatSearchQuery(query);
      Normalized(r)
      && (r != "" ==> !IsSpace(r[0]) && !IsSpace(r[|r| - 1]))
      && NonSpace(r) == NonSpace(query)
  {
    if query != "" {
      var t := Trim(query);
      assert FormatSearchQuery(query) == CollapseSpaces(t);
      CollapseNonSpace(t);
      CollapseEnds(t);
      CollapseNormal(t);
      TrimNonSpace(query);
    }
  }

  /** Normalising a normalised query changes nothing. */
  lemma SearchQueryIdempotent(query: string)
    ensures FormatSearchQuery(FormatSearchQuery(query)) == FormatSearchQuery(query)
  {
    var r := FormatSearchQuery(query);
    SearchQueryNormal(query);
    if r != "" {
      assert TrimStart(r) == r;
      assert TrimEnd(r) == r;
      CollapseNormalized(r);
    }
  }

  /** The leading run of non-whitespace characters of `s`. */
  function LeadingWord(s: string): (w: string)
    ensures w <= s
    ensures forall i :: 0 <= i < |w| ==> !IsSpace(w[i])
    ensures |w| < |s| ==> IsSpace(s[|w|])
  {
    if s == [] || IsSpace(s[0]) then [] else [s[0]] + LeadingWord(s[1..])
  }

  /** The words of `s`: its maximal runs of non-whitespace characters, in
      order. */
  function Words(s: string): (ws: seq<string>)
    decreases |s|
  {
    var t := TrimStart(s);
    if t == [] then []
    else
      var w := LeadingWord(t);
      [w] + Words(t[|w|..])
  }

  lemma {:induction false} TrimStartAppend(a: string, b: string)
    requires TrimStart(a) != []
    ensures TrimStart(a + b) == TrimStart(a) + b
  {
    if IsSpace(a[0]) {
      assert TrimStart(a + b) == TrimStart(a[1..] + b) by {
        assert (a + b)[0] == a[0];
        assert (a + b)[1..] == a[1..] + b;
      }
      TrimStartAppend(a[1..], b);
    } else {
      assert TrimStart(a + b) == a + b by {
        assert (a + b)[0] == a[0];
      }
    }
  }

  lemma {:induction false} LeadingWordAppend(a: string, b: string)
    ensures LeadingWord(a + b) == if |LeadingWord(a)| < |a| then LeadingWord(a) else a + LeadingWord(b)
  {
    if a == [] {
      assert a + b == b;
    } else if !IsSpace(a[0]) {
      assert (a + b)[1..] == a[1..] + b;
      LeadingWordAppend(a[1..], b);
    }
  }

  /** Whitespace after whitespace only is still whitespace only. */
  lemma AllSpaceAppend(x: string, sp: string)
    requires TrimStart(x) == []
    requires forall i :: 0 <= i < |sp| ==> IsSpace(sp[i])
    ensures TrimStart(x + sp) == []
  {
    var u := TrimStart(x + sp);
    assert u == (x + sp)[|x + sp| - |u|..];
  }

  /** A word followed by whitespace only ends where the whitespace starts. */
  lemma LeadingWordBeforeSpaces(t: string, sp: string)
    requires forall i :: 0 <= i < |sp| ==> IsSpace(sp[i])
    ensures LeadingWord(t + sp) == LeadingWord(t)
  {
    LeadingWordAppend(t, sp);
    if |LeadingWord(t)| == |t| {
      assert LeadingWord(t) == t;
      if sp != [] {
        assert LeadingWord(sp) == [];
      }
    }
  }

  lemma SliceAppend(a: string, b: string, k: nat)
    requires k <= |a|
    ensures (a + b)[k..] == a[k..] + b
  {
  }

  /** A string with a word: its first word, then the words after it. */
  lemma WordsStep(s: string)
    requires TrimStart(s) != []
    ensures var t := TrimStart(s); var w := LeadingWord(t);
      Words(s) == [w] + Words(t[|w|..])
  {
  }

  /** Whitespace appended to a string with a word leaves its first word
      alone and trails what follows. */
  lemma FirstWordBeforeSpaces(x: string, sp: string)
    requires TrimStart(x) != []
    requires forall i :: 0 <= i < |sp| ==> IsSpace(sp[i])
    ensures var t := TrimStart(x); var w := LeadingWord(t);
      Words(x + sp) == [w] + Words(t[|w|..] + sp)
  {
    var t := TrimStart(x);
    var w := LeadingWord(t);
    TrimStartAppend(x, sp);
    LeadingWordBeforeSpaces(t, sp);
    WordsStep(x + sp);
    SliceAppend(t, sp, |w|);
  }

  /** Trailing whitespace adds no word. */
  lemma {:induction false} WordsAppendSpaces(x: string, sp: string)
    requires forall i :: 0 <= i < |sp| ==> IsSpace(sp[i])
    ensures Words(x + sp) == Words(x)
    decreases |x|
  {
    var t := TrimStart(x);
    if t == [] {
      AllSpaceAppend(x, sp);
    } else {
      var w := LeadingWord(t);
      FirstWordBeforeSpaces(x, sp);
      WordsAppendSpaces(t[|w|..], sp);
    }
  }

  /** Leading whitespace adds no word. */
  lemma WordsTrimStart(s: string)
    ensures Words(TrimStart(s)) == Words(s)
  {
    var t := TrimStart(s);
    assert TrimStart(t) == t;
  }

  /** Trimming keeps the words. */
  lemma WordsTrim(s: string)
    ensures Words(Trim(s)) == Words(s)
  {
    var u := TrimStart(s);
    var v := TrimEnd(u);
    assert u == v + u[|v|..];
    WordsAppendSpaces(v, u[|v|..]);
    WordsTrimStart(s);
  }

  /** A whitespace-free prefix is kept as it is by collapsing. */
  lemma {:induction false} CollapseSpaceFree(w: string, rest: string)
    requires forall i :: 0 <= i < |w| ==> !IsSpace(w[i])
    ensures CollapseSpaces(w + rest) == w + CollapseSpaces(rest)
  {
    if w != [] {
      assert (w + rest)[1..] == w[1..] + rest;
      CollapseSpaceFree(w[1..], rest);
    } else {
      assert w + rest == rest;
    }
  }

  /** A string that starts with a word: that word, then the words of the
      rest. */
  lemma WordsOfWordStart(s: string)
    requires s != [] && !IsSpace(s[0])
    ensures Words(s) == [LeadingWord(s)] + Words(s[|LeadingWord(s)|..])
  {
    assert TrimStart(s) == s;
  }

  /** Joining a word in front of at least one more word. */
  lemma JoinCons(w: string, ws: seq<string>)
    requires ws != []
    ensures Join([w] + ws, " ") == w + " " + Join(ws, " ")
  {
    assert ([w] + ws)[1..] == ws;
  }

  /** In a string without whitespace at its ends, what follows the first
      word, when anything does, is whitespace and then a shorter string
      without whitespace at its ends, with the same words and collapse. */
  lemma NextWord(s: string) returns (t: string)
    requires s != [] && !IsSpace(s[0]) && !IsSpace(s[|s| - 1])
    requires |LeadingWord(s)| < |s|
    ensures t != [] && !IsSpace(t[0]) && !IsSpace(t[|t| - 1]) && |t| < |s|
    ensures CollapseSpaces(s[|LeadingWord(s)|..]) == [' '] + CollapseSpaces(t)
    ensures Words(s[|LeadingWord(s)|..]) == Words(t)
  {
    var rest := s[|LeadingWord(s)|..];
    assert |rest| >= 2;
    t := TrimStart(rest[1..]);
    assert t[|t| - 1] == s[|s| - 1] by {
      assert t == rest[1..][|rest| - 1 - |t|..];
    }
    assert TrimStart(rest) == t;
    assert TrimStart(t) == t;
  }

  lemma AppendAssoc(a: string, b: string, c: string)
    ensures a + (b + c) == a + b + c
  {
  }

  /** Collapsing a string without whitespace at its ends joins its words
      with single spaces. */
  lemma {:induction false} CollapseTrimmed(s: string)
    requires s != [] ==> !IsSpace(s[0]) && !IsSpace(s[|s| - 1])
    ensures CollapseSpaces(s) == Join(Words(s), " ")
    decreases |s|
  {
    if s != [] {
      var w := LeadingWord(s);
      var rest := s[|w|..];
      WordsOfWordStart(s);
      assert s == w + rest;
      CollapseSpaceFree(w, rest);
      if rest == [] {
        assert TrimStart(rest) == [];
        assert Words(s) == [w];
      } else {
        var t := NextWord(s);
        CollapseTrimmed(t);
        assert Words(t) != [] by {
          assert TrimStart(t) == t;
        }
        var ws := Words(t);
        var c := CollapseSpaces(t);
        assert c == Join(ws, " ");
        JoinCons(w, ws);
        calc {
          CollapseSpaces(s);
          w + CollapseSpaces(rest);
          w + ([' '] + c);
          { AppendAssoc(w, [' '], c); }
          w + " " + c;
          Join([w] + ws, " ");
        }
      }
    }
  }

  /** `formatSearchQuery` joins the words of the query with single spaces:
      every run of whitespace between two words becomes one space, and the
      whitespace at the ends is dropped. */
  lemma SearchQueryWords(query: string)
    ensures FormatSearchQuery(query) == Join(Words(query), " ")
  {
    if query == "" {
      assert TrimStart(query) == [];
    } else {
      CollapseTrimmed(Trim(query));
      WordsTrim(query);
    }
  }

  // ---------------------------------------------------------------------------
  // formatUrlParams

  /** The test `formatUrlParams` applies: not null, not undefined, not ''. */
  predicate IsSetParam(v: JsValue)
  {
    v != Null && v != Undefined && v != Str("")
  }

  /** `formatUrlParams`: copies, key by key, the parameters whose value is
      set; `0` and `false` are kept. */
  method FormatUrlParams(params: map<string, JsValue>) returns (valid: map<string, JsValue>)
    ensures forall k :: k in valid <==> k in params && IsSetParam(params[k])
    ensures forall k :: k in valid ==> valid[k] == params[k]
  {
    valid := map[];
    var keys := params.Keys;
    while keys != {}
      invariant keys <= params.Keys
      invariant forall k :: k in valid <==> k in params && k !in keys && IsSetParam(params[k])
      invariant forall k :: k in valid ==> valid[k] == params[k]
      decreases |keys|
    {
      var key :| key in keys;
      var value := params[key];
      if value != Null && value != Undefined && value != Str("") {
        valid := valid[key := value];
      }
      keys := keys - {key};
    }
  }
}
