/**
  Model identifiers: splitting a model string into a model and a recognised version, printing it back, and
  the Bedrock and Ollama forms. Dates are read and written by a calendar that is left open.
 */
module ModelIds {
  import opened Wrappers

  /** Year-month-day, the same without dashes, or month-day of the current year. */
  datatype DateFormat = Dashed | Compact | MonthDay

  datatype Dated = Dated(day: int, format: DateFormat)

  datatype Calendar = Calendar(parse: string -> Option<Dated>, show: Dated -> string)

  datatype Version =
    | ImplicitLatest
    | Latest
    | Preview
    | DatedPreview(date: Dated)
    | OnDate(date: Dated)

  function ShowVersion(cal: Calendar, v: Version): string
  {
    match v
    case ImplicitLatest => ""
    case Latest => "latest"
    case Preview => "preview"
    case DatedPreview(d) => "preview-" + cal.show(d)
    case OnDate(d) => cal.show(d)
  }

  // ---------- Text ----------

  predicate StartsAt(s: string, pattern: string, i: nat)
  {
    i + |pattern| <= |s| && s[i..i + |pattern|] == pattern
  }

  /** The last occurrence of `pattern` that begins before `n`. */
  function LastBefore(s: string, pattern: string, n: nat): (r: Option<nat>)
    ensures r.Some? ==> r.value < n && StartsAt(s, pattern, r.value) && forall j :: r.value < j < n ==> !StartsAt(s, pattern, j)
    ensures r.None? ==> forall j :: 0 <= j < n ==> !StartsAt(s, pattern, j)
  {
    if n == 0 then None else if StartsAt(s, pattern, n - 1) then Some(n - 1) else LastBefore(s, pattern, n - 1)
  }

  /** The first `c` at or after `from`. */
  function FirstChar(s: string, c: char, from: nat): (r: Option<nat>)
    ensures r.Some? ==> from <= r.value < |s| && s[r.value] == c && forall j :: from <= j < r.value ==> s[j] != c
    ensures r.None? ==> forall j :: from <= j < |s| ==> s[j] != c
    decreases |s| - from
  {
    if from >= |s| then None else if s[from] == c then Some(from) else FirstChar(s, c, from + 1)
  }

  function Lower(c: char): char
  {
    if 'A' <= c <= 'Z' then c - 'A' + 'a' else c
  }

  predicate EqIgnoreCase(s: string, t: string)
  {
    |s| == |t| && forall i :: 0 <= i < |s| ==> Lower(s[i]) == Lower(t[i])
  }

  /** The string ends in a dash and `word`. */
  predicate EndsIn(s: string, word: string)
  {
    |word| < |s| && s[|s| - |word| - 1] == '-' && s[|s| - |word|..] == word
  }

  // ---------- Splitting off a version ----------

  datatype Split = Split(model: string, version: Option<Version>)

  /** The version a candidate spells, dates before keywords. */
  function VersionOf(cal: Calendar, candidate: string): Option<Version>
  {
    if cal.parse(candidate).Some? then Some(OnDate(cal.parse(candidate).value))
    else if EqIgnoreCase(candidate, "latest") then Some(Latest)
    else if EqIgnoreCase(candidate, "preview") then Some(Preview)
    else None
  }

  datatype Wanted = FullDates | AnyVersion

  predicate Accepts(cal: Calendar, w: Wanted, candidate: string)
  {
    match w
    case FullDates => cal.parse(candidate).Some? && !cal.parse(candidate).value.format.MonthDay?
    case AnyVersion => VersionOf(cal, candidate).Some?
  }

  /** A dash with something after it. */
  predicate CutAt(s: string, i: nat)
  {
    i + 1 < |s| && s[i] == '-'
  }

  predicate Fits(cal: Calendar, w: Wanted, s: string, i: nat)
  {
    CutAt(s, i) && Accepts(cal, w, s[i + 1..])
  }

  /** The leftmost dash from `from` on whose rest is wanted. */
  function FirstCut(cal: Calendar, w: Wanted, s: string, from: nat): (r: Option<nat>)
    ensures r.Some? ==> from <= r.value && Fits(cal, w, s, r.value) && forall j :: from <= j < r.value ==> !Fits(cal, w, s, j)
    ensures r.None? ==> forall j :: from <= j ==> !Fits(cal, w, s, j)
    decreases |s| - from
  {
    if from + 1 >= |s| then None
    else if Fits(cal, w, s, from) then Some(from)
    else FirstCut(cal, w, s, from + 1)
  }

  /** The last "-preview-", if a date follows it. */
  function PreviewCut(cal: Calendar, s: string): Option<nat>
  {
    var p := LastBefore(s, "-preview-", |s|);
    if p.Some? && cal.parse(s[p.value + 9..]).Some? then p else None
  }

  function SplitVersion(cal: Calendar, s: string): Split
  {
    var p, full, any := PreviewCut(cal, s), FirstCut(cal, FullDates, s, 0), FirstCut(cal, AnyVersion, s, 0);
    if p.Some? then Split(s[..p.value], Some(DatedPreview(cal.parse(s[p.value + 9..]).value)))
    else if EndsIn(s, "preview") then Split(s[..|s| - 8], Some(Preview))
    else if EndsIn(s, "latest") then Split(s[..|s| - 7], Some(Latest))
    else if full.Some? then Split(s[..full.value], Some(OnDate(cal.parse(s[full.value + 1..]).value)))
    else if any.Some? then Split(s[..any.value], VersionOf(cal, s[any.value + 1..]))
    else Split(s, None)
  }

  // ---------- The source's loops ----------

  /** The cuts of `s` from left to right, collected backwards and reversed. */
  method Candidates(s: string) returns (cuts: seq<nat>)
    ensures forall i :: i in cuts <==> 0 <= i && CutAt(s, i)
    ensures forall a, b :: 0 <= a < b < |cuts| ==> cuts[a] < cuts[b]
  {
    var backwards: seq<nat> := [];
    for idx := |s| downto 0
      invariant forall i :: i in backwards <==> idx <= i && CutAt(s, i)
      invariant forall a :: 0 <= a < |backwards| ==> idx <= backwards[a]
      invariant forall a, b :: 0 <= a < b < |backwards| ==> backwards[a] > backwards[b]
    {
      if s[idx] == '-' {
        if idx == |s| - 1 {
          continue;
        }
        backwards := backwards + [idx];
      }
    }
    cuts := Reversed(backwards);
  }

  function Reversed(s: seq<nat>): (r: seq<nat>)
    ensures |r| == |s| && forall i :: 0 <= i < |s| ==> r[i] == s[|s| - 1 - i]
    ensures forall x :: x in r <==> x in s
  {
    if s == [] then [] else [s[|s| - 1]] + Reversed(s[..|s| - 1])
  }

  /** Scans the cuts for the first whose rest is wanted. */
  method FindCut(cal: Calendar, w: Wanted, s: string, cuts: seq<nat>) returns (r: Option<nat>)
    requires forall i :: i in cuts <==> 0 <= i && CutAt(s, i)
    requires forall a, b :: 0 <= a < b < |cuts| ==> cuts[a] < cuts[b]
    ensures r == FirstCut(cal, w, s, 0)
  {
    for k := 0 to |cuts|
      invariant forall a :: 0 <= a < k ==> !Fits(cal, w, s, cuts[a])
    {
      var idx := cuts[k];
      assert idx in cuts;
      if Accepts(cal, w, s[idx + 1..]) {
        FirstCutIs(cal, w, s, cuts, k);
        return Some(idx);
      }
    }
    NoFirstCut(cal, w, s, cuts);
    return None;
  }

  lemma FirstCutIs(cal: Calendar, w: Wanted, s: string, cuts: seq<nat>, k: nat)
    requires forall i :: i in cuts <==> 0 <= i && CutAt(s, i)
    requires forall a, b :: 0 <= a < b < |cuts| ==> cuts[a] < cuts[b]
    requires k < |cuts| && Fits(cal, w, s, cuts[k]) && forall a :: 0 <= a < k ==> !Fits(cal, w, s, cuts[a])
    ensures FirstCut(cal, w, s, 0) == Some(cuts[k])
  {
  }

  lemma NoFirstCut(cal: Calendar, w: Wanted, s: string, cuts: seq<nat>)
    requires forall i :: i in cuts <==> 0 <= i && CutAt(s, i)
    requires forall a :: 0 <= a < |cuts| ==> !Fits(cal, w, s, cuts[a])
    ensures FirstCut(cal, w, s, 0).None?
  {
  }

  /** The source's scanner computes the split. */
  method ParseModelAndVersion(cal: Calendar, s: string) returns (r: Split)
    ensures r == SplitVersion(cal, s)
  {
    var previewPos := LastBefore(s, "-preview-", |s|);
    if previewPos.Some? {
      var date := cal.parse(s[previewPos.value + 9..]);
      if date.Some? {
        return Split(s[..previewPos.value], Some(DatedPreview(date.value)));
      }
    }
    if EndsIn(s, "preview") {
      return Split(s[..|s| - 8], Some(Preview));
    }
    if EndsIn(s, "latest") {
      return Split(s[..|s| - 7], Some(Latest));
    }
    var cuts := Candidates(s);
    var full := FindCut(cal, FullDates, s, cuts);
    if full.Some? {
      return Split(s[..full.value], Some(OnDate(cal.parse(s[full.value + 1..]).value)));
    }
    var any := FindCut(cal, AnyVersion, s, cuts);
    if any.Some? {
      return Split(s[..any.value], VersionOf(cal, s[any.value + 1..]));
    }
    return Split(s, None);
  }

  // ---------- What a split means ----------

  /** `text` is a spelling of `v`. */
  predicate Spells(cal: Calendar, text: string, v: Version)
  {
    match v
    case ImplicitLatest => false
    case Latest => EqIgnoreCase(text, "latest")
    case Preview => EqIgnoreCase(text, "preview")
    case DatedPreview(d) => StartsAt(text, "preview-", 0) && cal.parse(text[8..]) == Some(d)
    case OnDate(d) => cal.parse(text) == Some(d)
  }

  /** What follows the model and its dash. */
  function VersionText(s: string, model: string): string
  {
    if |model| < |s| then s[|model| + 1..] else ""
  }

  /** The string is the model, a dash, and a spelling of the version. */
  predicate SplitsInto(cal: Calendar, s: string, model: string, v: Version)
  {
    s == model + (['-'] + VersionText(s, model)) && Spells(cal, VersionText(s, model), v)
  }

  /** A split cuts the string at one dash; what follows spells the version. Nothing else is changed. */
  lemma SplitIsExact(cal: Calendar, s: string)
    ensures var r := SplitVersion(cal, s);
      if r.version.None? then r.model == s else SplitsInto(cal, s, r.model, r.version.value)
  {
    var p, full, any := PreviewCut(cal, s), FirstCut(cal, FullDates, s, 0), FirstCut(cal, AnyVersion, s, 0);
    if p.Some? {
      PreviewText(cal, s, p.value);
    } else if EndsIn(s, "preview") {
      KeywordText(s, "preview");
    } else if EndsIn(s, "latest") {
      KeywordText(s, "latest");
    } else if full.Some? {
      CutText(s, full.value);
    } else if any.Some? {
      CutText(s, any.value);
    }
  }

  lemma CutText(s: string, i: nat)
    requires CutAt(s, i)
    ensures s == s[..i] + (['-'] + s[i + 1..]) && VersionText(s, s[..i]) == s[i + 1..]
  {
  }

  lemma KeywordText(s: string, word: string)
    requires EndsIn(s, word) && word != ""
    ensures var i := |s| - |word| - 1; CutAt(s, i) && s[i + 1..] == word && VersionText(s, s[..i]) == word
    ensures var i := |s| - |word| - 1; s == s[..i] + (['-'] + word)
  {
  }

  lemma PreviewText(cal: Calendar, s: string, p: nat)
    requires PreviewCut(cal, s) == Some(p)
    ensures var text := VersionText(s, s[..p]);
      s == s[..p] + (['-'] + text) && StartsAt(text, "preview-", 0) && text[8..] == s[p + 9..]
  {
    assert s[p..p + 9] == "-preview-";
    assert s[p] == s[p..p + 9][0];
    CutText(s, p);
    assert s[p + 1..][..8] == s[p..p + 9][1..];
    assert "-preview-"[1..] == "preview-";
    assert s[p + 1..][0..8] == s[p + 1..][..8];
  }

  /** The scanner gives up exactly when no suffix after a dash spells a version. */
  lemma NoVersionExactly(cal: Calendar, s: string)
    ensures SplitVersion(cal, s).version.None? <==>
      PreviewCut(cal, s).None? && forall i: nat :: CutAt(s, i) ==> VersionOf(cal, s[i + 1..]).None?
  {
    var any := FirstCut(cal, AnyVersion, s, 0);
    if EndsIn(s, "preview") && PreviewCut(cal, s).None? {
      KeywordText(s, "preview");
    } else if EndsIn(s, "latest") && PreviewCut(cal, s).None? {
      KeywordText(s, "latest");
    } else if any.None? {
      forall i: nat | CutAt(s, i) ensures VersionOf(cal, s[i + 1..]).None? {
        assert !Fits(cal, AnyVersion, s, i);
      }
      forall j | 0 <= j ensures !Fits(cal, FullDates, s, j) {
        assert !Fits(cal, AnyVersion, s, j);
      }
    } else {
      assert Fits(cal, AnyVersion, s, any.value);
    }
  }

  /** After the suffix rules, the leftmost full date wins over every month-day. */
  lemma FullDateWins(cal: Calendar, s: string, i: nat)
    requires PreviewCut(cal, s).None? && !EndsIn(s, "preview") && !EndsIn(s, "latest")
    requires Fits(cal, FullDates, s, i)
    ensures var r := SplitVersion(cal, s);
      && |r.model| <= i && Fits(cal, FullDates, s, |r.model|)
      && (forall j :: 0 <= j < |r.model| ==> !Fits(cal, FullDates, s, j))
      && r.version == Some(OnDate(cal.parse(s[|r.model| + 1..]).value))
  {
  }

  /** ... so a month-day result means that no suffix is a full date. */
  lemma MonthDayIsLastResort(cal: Calendar, s: string, d: Dated)
    requires SplitVersion(cal, s).version == Some(OnDate(d)) && d.format.MonthDay?
    ensures forall i: nat :: CutAt(s, i) ==> !Accepts(cal, FullDates, s[i + 1..])
  {
    var full := FirstCut(cal, FullDates, s, 0);
    assert full.None?;
    forall i: nat | CutAt(s, i) ensures !Accepts(cal, FullDates, s[i + 1..]) {
      assert !Fits(cal, FullDates, s, i);
    }
  }

  // ---------- The rules, in the order in which they apply ----------

  /** The last "-preview-" of `s` is at `p`, and the date `d` follows it. */
  ghost predicate DatedPreviewAt(cal: Calendar, s: string, p: nat, d: Dated)
  {
    && p + 9 <= |s| && s[p..p + 9] == "-preview-" && cal.parse(s[p + 9..]) == Some(d)
    && forall j :: p < j ==> !StartsAt(s, "-preview-", j)
  }

  /** First rule: a date after the last "-preview-". */
  lemma DatedPreviewExactly(cal: Calendar, s: string, p: nat, d: Dated)
    requires p <= |s|
    ensures SplitVersion(cal, s) == Split(s[..p], Some(DatedPreview(d))) <==> DatedPreviewAt(cal, s, p, d)
  {
    var last, cut := LastBefore(s, "-preview-", |s|), PreviewCut(cal, s);
    if DatedPreviewAt(cal, s, p, d) {
      assert StartsAt(s, "-preview-", p);
      assert last == Some(p);
    }
    if cut.Some? {
      assert s[cut.value..cut.value + 9] == "-preview-";
      assert SplitVersion(cal, s).model == s[..cut.value];
      assert |s[..p]| == p && |s[..cut.value]| == cut.value;
    }
  }

  ghost predicate NoDatedPreview(cal: Calendar, s: string)
  {
    forall p, d :: 0 <= p ==> !DatedPreviewAt(cal, s, p, d)
  }

  lemma NoPreviewCut(cal: Calendar, s: string)
    requires NoDatedPreview(cal, s)
    ensures PreviewCut(cal, s).None?
  {
    var cut := PreviewCut(cal, s);
    if cut.Some? {
      DatedPreviewExactly(cal, s, cut.value, cal.parse(s[cut.value + 9..]).value);
    }
  }

  /** Second and third rule: a suffix "-preview" or "-latest" in lower case. */
  lemma SuffixRules(cal: Calendar, model: string)
    ensures NoDatedPreview(cal, model + "-preview") ==> SplitVersion(cal, model + "-preview") == Split(model, Some(Preview))
    ensures NoDatedPreview(cal, model + "-latest") ==> SplitVersion(cal, model + "-latest") == Split(model, Some(Latest))
  {
    var p, l := model + "-preview", model + "-latest";
    if NoDatedPreview(cal, p) {
      NoPreviewCut(cal, p);
      assert ['-'] + "preview" == "-preview";
      EndsInWord(model, "preview", p);
    }
    if NoDatedPreview(cal, l) {
      NoPreviewCut(cal, l);
      LatestSplits(cal, model);
    }
  }

  lemma EndsInWord(model: string, word: string, s: string)
    requires s == model + (['-'] + word)
    ensures EndsIn(s, word) && s[..|s| - |word| - 1] == model
  {
  }

  lemma NotPreview(s: string)
    requires EndsIn(s, "latest")
    ensures !EndsIn(s, "preview")
  {
    assert s[|s| - 1] == s[|s| - 6..][5] == 't';
  }

  lemma LatestSplits(cal: Calendar, model: string)
    requires PreviewCut(cal, model + "-latest").None?
    ensures SplitVersion(cal, model + "-latest") == Split(model, Some(Latest))
  {
    var l := model + "-latest";
    assert ['-'] + "latest" == "-latest";
    EndsInWord(model, "latest", l);
    NotPreview(l);
  }

  /** No rule before the dates applies. */
  ghost predicate PlainEnd(cal: Calendar, s: string)
  {
    && NoDatedPreview(cal, s)
    && (|s| < 8 || s[|s| - 8..] != "-preview") && (|s| < 7 || s[|s| - 7..] != "-latest")
  }

  lemma NoSuffix(cal: Calendar, s: string)
    requires PlainEnd(cal, s)
    ensures PreviewCut(cal, s).None? && !EndsIn(s, "preview") && !EndsIn(s, "latest")
  {
    NoPreviewCut(cal, s);
  }

  /** The rest after the dash at `i` is a date, and one with a year. */
  ghost predicate FullDateAt(cal: Calendar, s: string, i: nat)
  {
    i + 1 < |s| && s[i] == '-' && cal.parse(s[i + 1..]).Some? && !cal.parse(s[i + 1..]).value.format.MonthDay?
  }

  /** Fourth rule: the leftmost full date. */
  lemma LeftmostFullDate(cal: Calendar, s: string, i: nat)
    requires PlainEnd(cal, s) && FullDateAt(cal, s, i) && forall j: nat :: j < i ==> !FullDateAt(cal, s, j)
    ensures SplitVersion(cal, s) == Split(s[..i], Some(OnDate(cal.parse(s[i + 1..]).value)))
  {
    NoSuffix(cal, s);
    var full := FirstCut(cal, FullDates, s, 0);
    assert Fits(cal, FullDates, s, i);
    assert full.Some? && FullDateAt(cal, s, full.value);
  }

  /** The word in any mixture of cases. */
  predicate AnyCase(text: string, lower: string, upper: string)
  {
    |text| == |lower| == |upper| && forall i :: 0 <= i < |text| ==> text[i] == lower[i] || text[i] == upper[i]
  }

  /** The rest after the dash at `i` is some version: a date, or a keyword in any mixture of cases. */
  ghost predicate VersionAt(cal: Calendar, s: string, i: nat)
  {
    && i + 1 < |s| && s[i] == '-'
    && (cal.parse(s[i + 1..]).Some? || AnyCase(s[i + 1..], "latest", "LATEST") || AnyCase(s[i + 1..], "preview", "PREVIEW"))
  }

  /** Fifth rule: without a full date, the leftmost version of any kind; and without that, none. */
  lemma LeftmostVersion(cal: Calendar, s: string, i: nat)
    requires PlainEnd(cal, s) && forall j: nat :: !FullDateAt(cal, s, j)
    requires forall j: nat :: j < i ==> !VersionAt(cal, s, j)
    ensures VersionAt(cal, s, i) ==>
      SplitVersion(cal, s) == Split(s[..i], Some(
        if cal.parse(s[i + 1..]).Some? then OnDate(cal.parse(s[i + 1..]).value)
        else if AnyCase(s[i + 1..], "latest", "LATEST") then Latest else Preview))
    ensures i >= |s| ==> SplitVersion(cal, s) == Split(s, None)
  {
    NoSuffix(cal, s);
    var full, any := FirstCut(cal, FullDates, s, 0), FirstCut(cal, AnyVersion, s, 0);
    assert full.Some? ==> FullDateAt(cal, s, full.value);
    if i + 1 < |s| {
      KeywordCases(s[i + 1..]);
      assert VersionAt(cal, s, i) ==> Fits(cal, AnyVersion, s, i);
    }
    if any.Some? {
      KeywordCases(s[any.value + 1..]);
      assert VersionAt(cal, s, any.value);
    }
  }

  lemma CasesOf(text: string, lower: string, upper: string)
    requires |lower| == |upper|
    requires forall i :: 0 <= i < |lower| ==> 'a' <= lower[i] <= 'z' && upper[i] == lower[i] - 'a' + 'A'
    ensures EqIgnoreCase(text, lower) <==> AnyCase(text, lower, upper)
  {
  }

  lemma KeywordCases(text: string)
    ensures EqIgnoreCase(text, "latest") <==> AnyCase(text, "latest", "LATEST")
    ensures EqIgnoreCase(text, "preview") <==> AnyCase(text, "preview", "PREVIEW")
  {
    CasesOf(text, "latest", "LATEST");
    CasesOf(text, "preview", "PREVIEW");
  }

  // ---------- Identifiers with a version ----------

  datatype VersionedId = VersionedId(model: string, version: Version)

  predicate BadEnd(s: string)
  {
    s == "" || s[|s| - 1] == '-' || s[|s| - 1] == '.' || s[|s| - 1] == '@'
  }

  function ParseVersioned(cal: Calendar, s: string): Option<VersionedId>
  {
    if BadEnd(s) then None
    else
      var r := SplitVersion(cal, s);
      Some(VersionedId(r.model, if r.version.Some? then r.version.value else ImplicitLatest))
  }

  /** Everything is read but the empty string and what ends in a dash, a dot or an at sign. */
  lemma VersionedReadsExactly(cal: Calendar, s: string)
    ensures ParseVersioned(cal, s).Some? <==> |s| > 0 && s[|s| - 1] !in "-.@"
  {
  }

  function ShowVersioned(cal: Calendar, id: VersionedId): string
  {
    if id.version.ImplicitLatest? then id.model else id.model + (['-'] + ShowVersion(cal, id.version))
  }

  /** Printing what was parsed changes at most the spelling of the version. */
  lemma PrintAfterParse(cal: Calendar, s: string)
    requires !BadEnd(s)
    ensures var id := ParseVersioned(cal, s).value;
      if id.version.ImplicitLatest? then id.model == s && ShowVersioned(cal, id) == s
      else
        SplitsInto(cal, s, id.model, id.version) &&
        (ShowVersioned(cal, id) == s <==> ShowVersion(cal, id.version) == VersionText(s, id.model))
  {
    SplitIsExact(cal, s);
    var id := ParseVersioned(cal, s).value;
    if !id.version.ImplicitLatest? {
      SameTail(id.model, ShowVersion(cal, id.version), VersionText(s, id.model));
    }
  }

  lemma SameTail(model: string, a: string, b: string)
    ensures model + (['-'] + a) == model + (['-'] + b) <==> a == b
  {
    var x, y := model + (['-'] + a), model + (['-'] + b);
    assert x[|model| + 1..] == a && y[|model| + 1..] == b;
  }

  /** Keywords in lower case, dates as the calendar writes them. */
  predicate WrittenAsPrinted(cal: Calendar, text: string, v: Version)
  {
    match v
    case ImplicitLatest => text == ""
    case Latest => text == "latest"
    case Preview => text == "preview"
    case DatedPreview(d) => 8 <= |text| && text[8..] == cal.show(d)
    case OnDate(d) => text == cal.show(d)
  }

  lemma SpellingPrinted(cal: Calendar, text: string, v: Version)
    requires Spells(cal, text, v)
    ensures ShowVersion(cal, v) == text <==> WrittenAsPrinted(cal, text, v)
  {
  }

  /** Parse then print is the identity exactly when the split-off version is written as it would be printed. */
  lemma RoundTrip(cal: Calendar, s: string)
    requires !BadEnd(s)
    ensures var r := SplitVersion(cal, s);
      ShowVersioned(cal, ParseVersioned(cal, s).value) == s <==>
        (r.version.Some? ==> WrittenAsPrinted(cal, VersionText(s, r.model), r.version.value))
  {
    PrintAfterParse(cal, s);
    SplitIsExact(cal, s);
    var r := SplitVersion(cal, s);
    if r.version.Some? {
      SpellingPrinted(cal, VersionText(s, r.model), r.version.value);
    }
  }

  // ---------- Bedrock ----------

  datatype BedrockId = BedrockId(provider: string, model: string, version: Option<Version>, internalVersion: string)

  /** The first dot and, after it, the last "-v". */
  function BedrockCuts(s: string): Option<(nat, nat)>
  {
    var dot := FirstChar(s, '.', 0);
    if dot.None? then None
    else
      var rest := s[dot.value + 1..];
      var v := LastBefore(rest, "-v", |rest|);
      if v.None? then None else Some((dot.value, v.value))
  }

  function ParseBedrock(cal: Calendar, s: string): Option<BedrockId>
  {
    var cuts := BedrockCuts(s);
    if cuts.None? then None
    else
      var (dot, v) := cuts.value;
      var rest := s[dot + 1..];
      var split := SplitVersion(cal, rest[..v]);
      Some(BedrockId(s[..dot], split.model, split.version, rest[v + 1..]))
  }

  function ShowBedrock(cal: Calendar, id: BedrockId): string
  {
    var name := if id.version.Some? then id.model + (['-'] + ShowVersion(cal, id.version.value)) else id.model;
    Joined(id.provider, name, id.internalVersion)
  }

  function Joined(provider: string, name: string, internalVersion: string): string
  {
    (provider + ['.']) + (name + (['-'] + internalVersion))
  }

  /** What lies between the provider's dot and the last "-v". */
  function BedrockPart(s: string): string
    requires BedrockCuts(s).Some?
  {
    var (dot, v) := BedrockCuts(s).value;
    s[dot + 1..][..v]
  }

  /** The parsed parts make up the string. */
  lemma BedrockIsExact(cal: Calendar, s: string)
    requires BedrockCuts(s).Some?
    ensures var id, part := ParseBedrock(cal, s).value, BedrockPart(s);
      && s == Joined(id.provider, part, id.internalVersion)
      && '.' !in id.provider && id.internalVersion != "" && id.internalVersion[0] == 'v'
      && (forall j: nat :: !StartsAt(id.internalVersion, "-v", j))
      && if id.version.None? then id.model == part else SplitsInto(cal, part, id.model, id.version.value)
  {
    var (dot, v) := BedrockCuts(s).value;
    LastIsLast(s[dot + 1..], v, s[dot + 1..][v + 1..]);
    InternalVersion(s[dot + 1..], v);
    DotSplit(s, dot);
    assert s == Joined(s[..dot], BedrockPart(s), s[dot + 1..][v + 1..]);
    SplitIsExact(cal, BedrockPart(s));
  }

  lemma StartsInRest(s: string, p: nat, pattern: string, i: nat)
    requires p <= |s|
    ensures StartsAt(s[p..], pattern, i) <==> StartsAt(s, pattern, p + i)
  {
    StartsShifted(s, p, "", pattern, i);
    assert "" + s[p..] == s[p..];
  }

  lemma LastIsLast(rest: string, v: nat, tail: string)
    requires LastBefore(rest, "-v", |rest|) == Some(v) && tail == rest[v + 1..]
    ensures forall j: nat :: !StartsAt(tail, "-v", j)
  {
    forall j: nat ensures !StartsAt(tail, "-v", j) {
      StartsInRest(rest, v + 1, "-v", j);
    }
  }

  lemma InternalVersion(rest: string, v: nat)
    requires StartsAt(rest, "-v", v)
    ensures rest == rest[..v] + (['-'] + rest[v + 1..]) && rest[v + 1..] != "" && rest[v + 1..][0] == 'v'
  {
    assert rest[v] == rest[v..v + 2][0] && rest[v + 1] == rest[v..v + 2][1];
    assert rest[v..] == ['-'] + rest[v + 1..];
  }

  /** A Bedrock string is one with a dot and, after it, a "-v". */
  lemma BedrockReadsExactly(cal: Calendar, s: string)
    ensures ParseBedrock(cal, s).Some? <==> exists i: nat, j: nat :: i < j < |s| && s[i] == '.' && StartsAt(s, "-v", j)
  {
    var dot := FirstChar(s, '.', 0);
    if dot.Some? {
      var rest := s[dot.value + 1..];
      var v := LastBefore(rest, "-v", |rest|);
      if v.Some? {
        StartsInRest(s, dot.value + 1, "-v", v.value);
      } else {
        forall i: nat, j: nat | i < j < |s| && s[i] == '.' ensures !StartsAt(s, "-v", j) {
          assert dot.value <= i;
          StartsInRest(s, dot.value + 1, "-v", j - (dot.value + 1));
        }
      }
    }
  }

  lemma DotSplit(s: string, dot: nat)
    requires FirstChar(s, '.', 0) == Some(dot)
    ensures s == (s[..dot] + ['.']) + s[dot + 1..] && '.' !in s[..dot]
  {
  }

  /** Printing gives the string back exactly when the version is spelled as it is printed. */
  lemma BedrockRoundTrip(cal: Calendar, s: string)
    requires BedrockCuts(s).Some?
    ensures var id, part := ParseBedrock(cal, s).value, BedrockPart(s);
      ShowBedrock(cal, id) == s <==>
        (id.version.Some? ==> WrittenAsPrinted(cal, VersionText(part, id.model), id.version.value))
  {
    var id, part := ParseBedrock(cal, s).value, BedrockPart(s);
    BedrockIsExact(cal, s);
    if id.version.Some? {
      SpellingPrinted(cal, VersionText(part, id.model), id.version.value);
      SameTail(id.model, ShowVersion(cal, id.version.value), VersionText(part, id.model));
      SameName(id.provider, id.model + (['-'] + ShowVersion(cal, id.version.value)), part, id.internalVersion);
    }
  }

  lemma SameName(provider: string, x: string, y: string, internalVersion: string)
    ensures Joined(provider, x, internalVersion) == Joined(provider, y, internalVersion) <==> x == y
  {
    var s, t, n := Joined(provider, x, internalVersion), Joined(provider, y, internalVersion), |provider| + 1;
    if s == t {
      assert |x| == |y|;
      assert s[n..n + |x|] == x && t[n..n + |y|] == y;
    }
  }

  // ---------- Ollama ----------

  datatype OllamaId = OllamaId(model: string, tag: Option<string>)

  function ParseOllama(s: string): OllamaId
  {
    var colon := FirstChar(s, ':', 0);
    if colon.None? then OllamaId(s, None)
    else
      var tag := s[colon.value + 1..];
      OllamaId(s[..colon.value], if tag == "" then None else Some(tag))
  }

  function ShowOllama(id: OllamaId): string
  {
    if id.tag.Some? then id.model + ([':'] + id.tag.value) else id.model
  }

  /** The first colon is the last character. */
  predicate TrailingColon(s: string)
  {
    var colon := FirstChar(s, ':', 0);
    colon.Some? && colon.value + 1 == |s|
  }

  /** Every string is an Ollama id, and printing loses only a colon at the end that is the first one. */
  lemma OllamaRoundTrip(s: string)
    ensures ShowOllama(ParseOllama(s)) == s <==> !TrailingColon(s)
  {
  }

  /** Printed ids of the form `model:tag` parse back to themselves when the model has no colon. */
  lemma OllamaPrintParse(id: OllamaId)
    requires ':' !in id.model && id.tag != Some("")
    ensures ParseOllama(ShowOllama(id)) == id
  {
    var s := ShowOllama(id);
    var colon := FirstChar(s, ':', 0);
    if id.tag.Some? {
      assert s[|id.model|] == ':';
      assert forall j :: 0 <= j < |id.model| ==> s[j] == id.model[j];
      assert colon == Some(|id.model|);
      assert s[..|id.model|] == id.model && s[|id.model| + 1..] == id.tag.value;
    }
  }

  // ---------- Identifiers of any provider ----------

  datatype Provider = OpenAI | Anthropic | BedrockProvider | OllamaProvider | GoogleGemini | NamedProvider(name: string)

  datatype ModelId =
    | Versioned(provider: Provider, id: VersionedId)
    | Bedrock(bedrock: BedrockId)
    | Ollama(ollama: OllamaId)
    | Unknown(text: string)  // no parser yields it

  /** Reads a model name in the style of a provider. */
  function ParseFor(cal: Calendar, provider: Provider, s: string): Option<ModelId>
  {
    match provider
    case BedrockProvider =>
      (match ParseBedrock(cal, s) case Some(b) => Some(Bedrock(b)) case None => None)
    case OllamaProvider => Some(Ollama(ParseOllama(s)))
    case _ =>
      (match ParseVersioned(cal, s) case Some(id) => Some(Versioned(provider, id)) case None => None)
  }

  /** The texts that can be read in a provider's style; no calendar is needed to tell. */
  predicate Readable(provider: Provider, s: string)
  {
    match provider
    case BedrockProvider => BedrockCuts(s).Some?
    case OllamaProvider => true
    case _ => !BadEnd(s)
  }

  lemma ReadableExactly(cal: Calendar, provider: Provider, s: string)
    ensures Readable(provider, s) <==> ParseFor(cal, provider, s).Some?
  {
  }

  /** The name under which a model is looked up: without its version. */
  function NameOf(m: ModelId): string
  {
    match m
    case Versioned(_, id) => id.model
    case Bedrock(b) => b.model
    case Ollama(o) => o.model
    case Unknown(text) => text
  }

  /** The provider a model belongs to. */
  function ProviderOf(m: ModelId): Option<Provider>
  {
    match m
    case Versioned(provider, _) => Some(provider)
    case Bedrock(_) => Some(BedrockProvider)
    case Ollama(_) => Some(OllamaProvider)
    case Unknown(_) => None
  }

  /** A text read in a provider's style belongs to that provider. */
  lemma ProviderKept(cal: Calendar, provider: Provider, s: string)
    requires Readable(provider, s)
    ensures ParseFor(cal, provider, s).Some? && ProviderOf(ParseFor(cal, provider, s).value) == Some(provider)
  {
  }

  // ---------- The name a model is looked up by ----------

  /** The looked-up name, read off the text: without the version, the Bedrock prefix and suffix, or the tag. */
  function LookupName(cal: Calendar, provider: Provider, s: string): string
  {
    match provider
    case BedrockProvider => if BedrockCuts(s).Some? then SplitVersion(cal, BedrockPart(s)).model else s
    case OllamaProvider => var colon := FirstChar(s, ':', 0); if colon.Some? then s[..colon.value] else s
    case _ => SplitVersion(cal, s).model
  }

  lemma LookupNameIs(cal: Calendar, provider: Provider, s: string)
    requires Readable(provider, s)
    ensures ParseFor(cal, provider, s).Some? && NameOf(ParseFor(cal, provider, s).value) == LookupName(cal, provider, s)
  {
  }

  /** The texts that carry nothing beyond the name. */
  predicate KeepsName(cal: Calendar, provider: Provider, s: string)
  {
    match provider
    case BedrockProvider => false
    case OllamaProvider => ':' !in s
    case _ => SplitVersion(cal, s).version.None?
  }

  /** A readable text is looked up as itself exactly if it has no version or tag; a Bedrock name never is. */
  lemma KeepsNameExactly(cal: Calendar, provider: Provider, s: string)
    requires Readable(provider, s)
    ensures LookupName(cal, provider, s) == s <==> KeepsName(cal, provider, s)
  {
    match provider
    case BedrockProvider => BedrockNameShorter(cal, s);
    case OllamaProvider =>
      var colon := FirstChar(s, ':', 0);
      assert colon.Some? ==> |s[..colon.value]| < |s|;
    case _ => SplitShortens(cal, s);
  }

  /** A split that finds a version leaves less than the string. */
  lemma SplitShortens(cal: Calendar, s: string)
    ensures var r := SplitVersion(cal, s);
      |r.model| <= |s| && (r.version.Some? <==> |r.model| < |s|) && (r.version.None? <==> r.model == s)
  {
    SplitIsExact(cal, s);
  }

  lemma BedrockNameShorter(cal: Calendar, s: string)
    requires BedrockCuts(s).Some?
    ensures |LookupName(cal, BedrockProvider, s)| < |s|
  {
    SplitShortens(cal, BedrockPart(s));
  }

  /** Whatever the calendar accepts, every string is the looked-up name of some text that can be requested. */
  lemma EveryNameIsRead(cal: Calendar, n: string) returns (text: string)
    ensures ParseFor(cal, OpenAI, text).Some? && NameOf(ParseFor(cal, OpenAI, text).value) == n
  {
    var s := n + "-latest";
    var p := PreviewCut(cal, s);
    assert s[|s| - 1] == 't';
    if p.None? {
      text := s;
      LatestSplits(cal, n);
    } else {
      text := n + s[p.value..];
      PreviewMoved(cal, s, p.value, n);
      assert text[|text| - 1] == s[|s| - 1];
    }
  }

  lemma StartsShifted(s: string, p: nat, n: string, pattern: string, i: nat)
    requires p <= |s|
    ensures StartsAt(n + s[p..], pattern, |n| + i) <==> StartsAt(s, pattern, p + i)
  {
    var t := n + s[p..];
    if p + i + |pattern| <= |s| {
      assert t[|n| + i..|n| + i + |pattern|] == s[p + i..p + i + |pattern|];
    }
  }

  /** The last occurrence stays the last when the text before it is replaced. */
  lemma LastMoved(s: string, p: nat, n: string, pattern: string)
    requires LastBefore(s, pattern, |s|) == Some(p)
    ensures LastBefore(n + s[p..], pattern, |n + s[p..]|) == Some(|n|)
  {
    var t := n + s[p..];
    StartsShifted(s, p, n, pattern, 0);
    forall j: nat | |n| < j < |t| ensures !StartsAt(t, pattern, j) {
      StartsShifted(s, p, n, pattern, j - |n|);
    }
  }

  /** A dated preview stays one when the model before it is replaced. */
  lemma PreviewMoved(cal: Calendar, s: string, p: nat, n: string)
    requires PreviewCut(cal, s) == Some(p)
    ensures var t := n + s[p..];
      SplitVersion(cal, t) == Split(n, Some(DatedPreview(cal.parse(s[p + 9..]).value)))
  {
    var t := n + s[p..];
    LastMoved(s, p, n, "-preview-");
    assert t[|n| + 9..] == s[p + 9..] && t[..|n|] == n;
  }
}
