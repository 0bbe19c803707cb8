/** The text and number helpers of services/excelService.ts that read one
    spreadsheet row: name normalisation, exclusion lists, game
    classification, header lookup, number parsing and loss derivation. */
module ExcelService {
  import opened Outcomes
  import opened Types
  import opened Constants
  import opened JsText

  // ---------------------------------------------------------------------------
  // normalize / isExcluded

  /** `normalize` on text: lower-cased, then trimmed. */
  function Normalize(s: string): string {
    Trim(ToLower(s))
  }

  /** A normalised name has no upper-case letter and no surrounding whitespace. */
  lemma NormalizedShape(s: string)
    ensures var r := Normalize(s);
      && (forall k :: 0 <= k < |r| ==> !IsUpper(r[k]))
      && (r == [] || (!IsJsWhitespace(r[0]) && !IsJsWhitespace(r[|r| - 1])))
  {
    ToLowerAt(s);
    TrimKeepsLower(ToLower(s));
  }

  lemma TrimKeepsLower(s: string)
    requires forall k :: 0 <= k < |s| ==> !IsUpper(s[k])
    ensures forall k :: 0 <= k < |Trim(s)| ==> !IsUpper(Trim(s)[k])
  {
    var r := Trim(s);
    var a := SkipWhitespace(s, 0);
    assert forall k :: 0 <= k < |r| ==> r[k] == s[a + k];
  }

  lemma LowerKeepsLower(s: string)
    requires forall k :: 0 <= k < |s| ==> !IsUpper(s[k])
    ensures ToLower(s) == s
  {
    ToLowerAt(s);
  }

  lemma TrimKeepsTrimmed(s: string)
    requires s == [] || (!IsJsWhitespace(s[0]) && !IsJsWhitespace(s[|s| - 1]))
    ensures Trim(s) == s
  {
    if s != [] {
      assert SkipWhitespace(s, 0) == 0;
      assert DropTrailing(s, |s|) == |s|;
    }
  }

  /** Normalising a normalised name changes nothing. */
  lemma NormalizeIdempotent(s: string)
    ensures Normalize(Normalize(s)) == Normalize(s)
  {
    var n := Normalize(s);
    NormalizedShape(s);
    LowerKeepsLower(n);
    TrimKeepsTrimmed(n);
  }

  /** Normalises a literal through its lower-cased form (used for the constant lists). */
  lemma NormalizeVia(s: string, lower: string)
    requires ToLower(s) == lower
    requires lower == [] || (!IsJsWhitespace(lower[0]) && !IsJsWhitespace(lower[|lower| - 1]))
    ensures Normalize(s) == lower
  {
    TrimKeepsTrimmed(lower);
  }

  function MapFrom(f: string -> string, list: seq<string>, i: nat): (r: seq<string>)
    requires i <= |list|
    ensures |r| == |list| - i
    ensures forall k :: 0 <= k < |r| ==> r[k] == f(list[i + k])
    decreases |list| - i
  {
    if i == |list| then [] else [f(list[i])] + MapFrom(f, list, i + 1)
  }

  /** Every entry of a list normalised. */
  function NormalizeAll(list: seq<string>): (r: seq<string>)
    ensures |r| == |list|
    ensures forall k :: 0 <= k < |r| ==> r[k] == Normalize(list[k])
  {
    MapFrom(Normalize, list, 0)
  }

  function ContainsAnyFrom(s: string, words: seq<string>, i: nat): (r: bool)
    requires i <= |words|
    ensures r <==> exists k :: i <= k < |words| && Includes(s, words[k])
    decreases |words| - i
  {
    if i == |words| then false
    else Includes(s, words[i]) || ContainsAnyFrom(s, words, i + 1)
  }

  /** `words.some(w => s.includes(w))`. */
  function ContainsAny(s: string, words: seq<string>): (r: bool)
    ensures r <==> exists k :: 0 <= k < |words| && Includes(s, words[k])
  {
    ContainsAnyFrom(s, words, 0)
  }


  /** `isExcluded`: the normalised name contains some normalised list entry. */
  function IsExcluded(game: string, list: seq<string>): (r: bool)
    ensures r <==> exists k :: 0 <= k < |list| && Includes(Normalize(game), Normalize(list[k]))
  {
    var entries := NormalizeAll(list);
    var r := ContainsAny(Normalize(game), entries);
    assert r ==> exists k :: 0 <= k < |list| && Includes(Normalize(game), Normalize(list[k]));
    r
  }

  // ---------------------------------------------------------------------------
  // identifyCategory

  /** The keywords that mark a live-casino game. */
  const LiveKeywords: seq<string> :=
    ["live", "ao vivo", "roulette", "roleta", "blackjack", "baccarat", "crazy time",
     "monopoly", "mega ball", "dream catcher", "sic bo", "dragon tiger"]

  predicate MentionsAviator(normGame: string) {
    Includes(normGame, "aviator")
  }

  predicate MentionsSport(normGame: string) {
    Includes(normGame, "sport") || Includes(normGame, "esport")
      || Includes(normGame, "apostas") || Includes(normGame, "odds")
  }

  function WeeklyExclusions(p: Platform): seq<string> {
    if p == Vera then VeraExcludedGamesWeekly else ExcludedGamesWeekly
  }

  function DailyExclusions(p: Platform): seq<string> {
    if p == Vera then VeraExcludedGamesDaily else ExcludedGamesDaily
  }

  /** `identifyCategory`: the first of the ordered rules that fires names the
      category (aviator off 7K, sports on 7K, a non-excluded live game,
      a non-excluded other game); `None` is the source's `null`. */
  function IdentifyCategory(game: string, platform: Platform): (r: Option<Mode>)
    ensures r == Some(Aviator) <==> platform != SevenK && MentionsAviator(Normalize(game))
    ensures r == Some(Sports) <==> platform == SevenK && MentionsSport(Normalize(game))
    ensures r == Some(Weekly) <==>
              && !(platform != SevenK && MentionsAviator(Normalize(game)))
              && !MentionsSport(Normalize(game))
              && ContainsAny(Normalize(game), LiveKeywords) && !IsExcluded(game, WeeklyExclusions(platform))
    ensures r == Some(Daily) <==>
              && !(platform != SevenK && MentionsAviator(Normalize(game)))
              && !MentionsSport(Normalize(game))
              && !(ContainsAny(Normalize(game), LiveKeywords) && !IsExcluded(game, WeeklyExclusions(platform)))
              && !IsExcluded(game, DailyExclusions(platform))
    ensures r.None? && !MentionsSport(Normalize(game)) ==> IsExcluded(game, DailyExclusions(platform))
  {
    var g := Normalize(game);
    if MentionsAviator(g) && platform != SevenK then Some(Aviator)
    else if MentionsSport(g) then (if platform == SevenK then Some(Sports) else None)
    else if ContainsAny(g, LiveKeywords) && !IsExcluded(game, WeeklyExclusions(platform)) then Some(Weekly)
    else if !IsExcluded(game, DailyExclusions(platform)) then Some(Daily)
    else None
  }

  /** Sports is only ever chosen where the platform has sports cashback (7K). */
  lemma SportsOnlyWhereOffered(game: string, platform: Platform)
    ensures IdentifyCategory(game, platform) == Some(Sports) ==> HasSports(platform)
  {
  }

  /** A live game that the weekly list excludes is not dropped: it falls through to the daily check. */
  lemma ExcludedLiveGameFallsToDaily(game: string, platform: Platform)
    requires !MentionsAviator(Normalize(game)) || platform == SevenK
    requires !MentionsSport(Normalize(game))
    requires IsExcluded(game, WeeklyExclusions(platform))
    ensures IdentifyCategory(game, platform) ==
              if IsExcluded(game, DailyExclusions(platform)) then None else Some(Daily)
  {
  }

  /** Classification ignores letter case and surrounding whitespace of the game name. */
  lemma CategoryIgnoresCaseAndPadding(game: string, platform: Platform)
    ensures IdentifyCategory(Normalize(game), platform) == IdentifyCategory(game, platform)
  {
    NormalizeIdempotent(game);
  }

  /** Aviator classification is gated on the platform not being 7K, not on the
      `hasAviator` flag: Vera has no aviator cashback yet its aviator rows are classified aviator. */
  lemma VeraAviatorDespiteFlag()
    ensures !HasAviator(Vera)
    ensures IdentifyCategory("aviator", Vera) == Some(Aviator)
  {
    NormalizeVia("aviator", "aviator");
    IncludesSelf("aviator");
  }

  /** Sports games earn nothing off 7K: the sports rule fires before the live and
      daily rules, and off 7K it yields `null`. */
  lemma SportsOffSevenKIsNull(game: string, platform: Platform)
    requires platform != SevenK
    requires MentionsSport(Normalize(game)) && !MentionsAviator(Normalize(game))
    ensures IdentifyCategory(game, platform) == None
  {
  }

  // ---------------------------------------------------------------------------
  // findValue

  predicate HeaderIs(header: string, key: string) {
    Normalize(header) == Normalize(key)
  }

  predicate HeaderContains(header: string, key: string) {
    Includes(Normalize(header), Normalize(key))
  }

  /** An exact (normalised) header match is also a substring match. */
  lemma ExactIsContained(header: string, key: string)
    requires HeaderIs(header, key)
    ensures HeaderContains(header, key)
  {
    IncludesSelf(Normalize(key));
  }

  /** Index of the first element at or after `i` that satisfies `p`. */
  function FirstIndex<T>(s: seq<T>, p: T -> bool, i: nat): (r: Option<nat>)
    requires i <= |s|
    ensures r.Some? ==> i <= r.value < |s| && p(s[r.value])
    ensures r.Some? ==> forall j :: i <= j < r.value ==> !p(s[j])
    ensures r.None? ==> forall j :: i <= j < |s| ==> !p(s[j])
    decreases |s| - i
  {
    if i == |s| then None
    else if p(s[i]) then Some(i)
    else FirstIndex(s, p, i + 1)
  }

  /** The first element satisfying `p` is the one before which none does. */
  lemma FirstIndexIs<T>(s: seq<T>, p: T -> bool, i: nat)
    requires i < |s| && p(s[i])
    requires forall j :: 0 <= j < i ==> !p(s[j])
    ensures FirstIndex(s, p, 0) == Some(i)
  {
  }

  /** The column test of the exact pass of `findValue`. */
  function ExactColumn(key: string): ((string, Cell)) -> bool {
    (column: (string, Cell)) => HeaderIs(column.0, key)
  }

  /** The column test of the substring pass of `findValue`. */
  function ContainingColumn(key: string): ((string, Cell)) -> bool {
    (column: (string, Cell)) => HeaderContains(column.0, key)
  }

  /** Some header of the row contains `key` (after normalisation). */
  predicate KeyHits(row: Row, key: string) {
    FirstIndex(row, ContainingColumn(key), 0).Some?
  }

  /** A key hits exactly when some header contains it. */
  lemma KeyHitsMeans(row: Row, key: string)
    ensures KeyHits(row, key) <==> exists i :: 0 <= i < |row| && HeaderContains(row[i].0, key)
  {
    if !KeyHits(row, key) {
      assert forall i :: 0 <= i < |row| ==> !ContainingColumn(key)(row[i]);
    }
  }

  /** One iteration of `findValue`'s loop: the first exact header, else the first containing header. */
  function LookupKey(row: Row, key: string): (r: Option<Cell>)
    ensures r.Some? <==> KeyHits(row, key)
  {
    match FirstIndex(row, ExactColumn(key), 0)
    case Some(i) =>
      ExactIsContained(row[i].0, key);
      assert ContainingColumn(key)(row[i]);
      Some(row[i].1)
    case None =>
      match FirstIndex(row, ContainingColumn(key), 0)
      case Some(i) => Some(row[i].1)
      case None => None
  }

  /** The first header equal to the key, in row order, gives the value. */
  lemma LookupPrefersFirstExact(row: Row, key: string, i: nat)
    requires i < |row| && HeaderIs(row[i].0, key)
    requires forall j :: 0 <= j < i ==> !HeaderIs(row[j].0, key)
    ensures LookupKey(row, key) == Some(row[i].1)
  {
    FirstIndexIs(row, ExactColumn(key), i);
  }

  /** With no header equal to the key, the first header containing it gives the value. */
  lemma LookupFallsBackToFirstContaining(row: Row, key: string, i: nat)
    requires forall j :: 0 <= j < |row| ==> !HeaderIs(row[j].0, key)
    requires i < |row| && HeaderContains(row[i].0, key)
    requires forall j :: 0 <= j < i ==> !HeaderContains(row[j].0, key)
    ensures LookupKey(row, key) == Some(row[i].1)
  {
    assert FirstIndex(row, ExactColumn(key), 0).None?;
    FirstIndexIs(row, ContainingColumn(key), i);
  }

  /** The key test of `findValue`'s outer loop. */
  function HitsIn(row: Row): string -> bool {
    key => KeyHits(row, key)
  }

  /** `findValue`: the value under the first key (in the given order) that any
      header matches; for that key an exact header beats a containing one.
      `None` is the source's `undefined`. */
  function FindValue(row: Row, keys: seq<string>): (r: Option<Cell>)
    ensures r.None? <==> forall k :: 0 <= k < |keys| ==> !KeyHits(row, keys[k])
  {
    match FirstIndex(keys, HitsIn(row), 0)
    case Some(k) => LookupKey(row, keys[k])
    case None => None
  }

  /** The value comes from the first key that some header matches. */
  lemma FindValueUsesFirstHitKey(row: Row, keys: seq<string>, k: nat)
    requires k < |keys| && KeyHits(row, keys[k])
    requires forall k' :: 0 <= k' < k ==> !KeyHits(row, keys[k'])
    ensures FindValue(row, keys) == LookupKey(row, keys[k])
  {
    FirstIndexIs(keys, HitsIn(row), k);
  }

  const DateKeys: seq<string> := ["Data", "Date", "Dia"]
  const GameKeys: seq<string> := ["Tipo de Jogo", "Game", "Jogo", "Nome"]
  const BetKeys: seq<string> := ["Valor Apostado", "Bet", "Aposta"]
  const WinKeys: seq<string> := ["Valor Ganho", "Win", "Ganho"]
  const GgrKeys: seq<string> := ["GGR", "PL", "P/L", "Win/Loss"]

  /** In a one-column row the value is found under the first key its header matches. */
  lemma LoneColumnFirstMatchingKey(header: string, v: Cell, keys: seq<string>, k: nat)
    requires k < |keys| && HeaderContains(header, keys[k])
    requires forall k' :: 0 <= k' < k ==> !HeaderContains(header, keys[k'])
    ensures FindValue([(header, v)], keys) == Some(v)
  {
    var row := [(header, v)];
    assert row[0].0 == header;
    FindValueUsesFirstHitKey(row, keys, k);
    LookupLoneColumn(header, v, keys[k]);
  }

  /** Substring matching is loose: the header "Player" answers to the GGR key "PL"
      and not to "GGR", so by LoneColumnFirstMatchingKey a lone "Player" column is
      read as the GGR value. */
  lemma PlayerHeaderMatchesPl()
    ensures HeaderContains("Player", "PL") && !HeaderContains("Player", "GGR")
  {
    NormalizeVia("Player", "player");
    NormalizeVia("GGR", "ggr");
    NormalizeVia("PL", "pl");
    PlayerContainsPl();
  }

  lemma PlayerContainsPl()
    ensures Includes("player", "pl") && !Includes("player", "ggr")
  {
    IncludesMeans("player", "pl");
    assert OccursAt("player", "pl", 0);
  }

  /** In a one-column row a key yields the cell exactly when the header matches it. */
  lemma LookupLoneColumn(header: string, v: Cell, key: string)
    ensures LookupKey([(header, v)], key) == if HeaderContains(header, key) then Some(v) else None
  {
    var row := [(header, v)];
    assert KeyHits(row, key) <==> HeaderContains(header, key) by {
      assert row[0].0 == header;
    }
    if HeaderContains(header, key) {
      var f := FirstIndex(row, ExactColumn(key), 0);
      var g := FirstIndex(row, ContainingColumn(key), 0);
      assert f.Some? ==> f.value == 0;
      assert f.None? ==> g == Some(0);
    }
  }

  // ---------------------------------------------------------------------------
  // parseNumber

  /** End of the run of digits starting at `i`. */
  function DigitRunEnd(s: string, i: nat): (r: nat)
    requires i <= |s|
    ensures i <= r <= |s|
    ensures forall k :: i <= k < r ==> IsDigit(s[k])
    ensures r < |s| ==> !IsDigit(s[r])
    decreases |s| - i
  {
    if i == |s| || !IsDigit(s[i]) then i else DigitRunEnd(s, i + 1)
  }

  /** The decimal value of digit strings `whole` and `frac` read as `whole.frac`. */
  function DecimalValue(whole: string, frac: string): real
    requires AllDigits(whole) && AllDigits(frac)
  {
    DigitsValue(whole) as real + DigitsValue(frac) as real / Pow10(|frac|) as real
  }

  /** `parseFloat` on text without leading whitespace, restricted to plain decimals:
      the longest prefix of the form sign? digits* ('.' digits*)? holding at least
      one digit; `None` (NaN) when there is no such prefix. */
  function ParseDecimalPrefix(s: string): (r: Option<real>)
    ensures r.None? <==>
      var start := if |s| > 0 && (s[0] == '+' || s[0] == '-') then 1 else 0;
      && (start == |s| || !IsDigit(s[start]))
      && (start + 1 >= |s| || s[start] != '.' || !IsDigit(s[start + 1]))
  {
    var start := if |s| > 0 && (s[0] == '+' || s[0] == '-') then 1 else 0;
    var intEnd := DigitRunEnd(s, start);
    var hasDot := intEnd < |s| && s[intEnd] == '.';
    var fracEnd := if hasDot then DigitRunEnd(s, intEnd + 1) else intEnd;
    var fracStart := if hasDot then intEnd + 1 else intEnd;
    if intEnd == start && fracEnd == fracStart then None
    else
      var magnitude := DecimalValue(s[start..intEnd], s[fracStart..fracEnd]);
      Some(if start == 1 && s[0] == '-' then -magnitude else magnitude)
  }

  /** Characters that `clean.replace(/[R$\s]/g, '')` removes. */
  predicate IsCurrencyNoise(c: char) {
    c == 'R' || c == '$' || IsJsWhitespace(c)
  }

  /** The text `parseNumber` hands to `parseFloat`: currency marks and whitespace
      stripped, and a lone decimal comma turned into a point. */
  function CleanNumberText(s: string): (r: string)
    ensures forall k :: 0 <= k < |r| ==> !IsCurrencyNoise(r[k])
    ensures ',' in r ==> '.' in r
  {
    var stripped := RemoveWhere(s, IsCurrencyNoise);
    if ',' in stripped && '.' !in stripped then ReplaceFirst(stripped, ',', '.') else stripped
  }

  /** `parseNumber`: numbers unchanged; text that is blank or does not parse gives 0. */
  function ParseNumber(c: Cell): (r: real)
    ensures c.Num? ==> r == c.n
    ensures c.Str? && Trim(c.s) == [] ==> r == 0.0
    ensures c.Str? && ParseDecimalPrefix(CleanNumberText(Trim(c.s))).None? ==> r == 0.0
  {
    match c
    case Num(n) => n
    case Str(s) =>
      var t := Trim(s);
      if t == [] then 0.0
      else
        match ParseDecimalPrefix(CleanNumberText(t))
        case None => 0.0
        case Some(v) => v
  }

  /** Where the digit runs of `w.frac` followed by `junk` start and end. */
  lemma IntegerRunOfDecimal(w: string, frac: string, junk: string)
    requires AllDigits(w)
    ensures DigitRunEnd(w + "." + frac + junk, 0) == |w|
  {
    var s := w + "." + frac + junk;
    var rest := "." + frac + junk;
    DigitRunOver([], w, rest);
    assert [] + w == w;
    assert w + rest == s;
  }

  lemma FractionRunOfDecimal(w: string, frac: string, junk: string)
    requires AllDigits(frac)
    requires junk == [] || !IsDigit(junk[0])
    ensures DigitRunEnd(w + "." + frac + junk, |w| + 1) == |w| + 1 + |frac|
  {
    var p := w + ".";
    DigitRunOver(p, frac, junk);
    assert |p| == |w| + 1;
  }

  /** Where the digit runs of `w.frac` followed by `junk` start and end. */
  lemma DecimalLayout(w: string, frac: string, junk: string)
    requires AllDigits(w) && |w| >= 1 && AllDigits(frac)
    requires junk == [] || (!IsDigit(junk[0]) && junk[0] != '.')
    ensures var s := w + "." + frac + junk;
      && IsDigit(s[0]) && DigitRunEnd(s, 0) == |w| && s[|w|] == '.'
      && DigitRunEnd(s, |w| + 1) == |w| + 1 + |frac|
      && s[0..|w|] == w && s[|w| + 1..|w| + 1 + |frac|] == frac
  {
    IntegerRunOfDecimal(w, frac, junk);
    FractionRunOfDecimal(w, frac, junk);
    var s := w + "." + frac + junk;
    assert s[0..|w|] == w;
    assert s[|w| + 1..|w| + 1 + |frac|] == frac;
  }

  /** A digit run placed after any prefix ends where the run ends. */
  lemma DigitRunOver(p: string, d: string, rest: string)
    requires AllDigits(d)
    requires rest == [] || !IsDigit(rest[0])
    ensures DigitRunEnd(p + d + rest, |p|) == |p| + |d|
  {
    var s := p + d + rest;
    forall k | |p| <= k < |p| + |d|
      ensures IsDigit(s[k])
    {
      assert s[k] == d[k - |p|];
    }
    DigitRunEndAt(s, |p|, |p| + |d|);
  }

  /** Text parsing stops at the first character that cannot continue a decimal. */
  lemma ParseStopsAtJunk(w: string, frac: string, junk: string)
    requires AllDigits(w) && |w| >= 1 && AllDigits(frac)
    requires junk == [] || (!IsDigit(junk[0]) && junk[0] != '.')
    ensures ParseDecimalPrefix(w + "." + frac + junk) == Some(DecimalValue(w, frac))
  {
    DecimalLayout(w, frac, junk);
  }

  /** A sign that `parseFloat` accepts in front of the digits: none, `+` or `-`. */
  predicate IsSignText(sg: string) {
    sg == "" || sg == "+" || sg == "-"
  }

  /** The value a signed magnitude reads as. */
  function Signed(sg: string, magnitude: real): real {
    if sg == "-" then -magnitude else magnitude
  }

  /** Signed decimals with a point, such as "-20.5", "+.5" or "7.", parse up to
      the first character that cannot continue the fraction. */
  lemma ParseSignedDecimal(sg: string, w: string, f: string, junk: string)
    requires IsSignText(sg) && AllDigits(w) && AllDigits(f) && |w| + |f| >= 1
    requires junk == [] || !IsDigit(junk[0])
    ensures ParseDecimalPrefix(sg + w + "." + f + junk) == Some(Signed(sg, DecimalValue(w, f)))
  {
    SignedDecimalLayout(sg, w, f, junk);
  }

  /** Where the sign, the digit runs and the point of `sg w.f junk` lie. */
  lemma SignedDecimalLayout(sg: string, w: string, f: string, junk: string)
    requires IsSignText(sg) && AllDigits(w) && AllDigits(f) && |w| + |f| >= 1
    requires junk == [] || !IsDigit(junk[0])
    ensures var s := sg + w + "." + f + junk;
      && (if |s| > 0 && (s[0] == '+' || s[0] == '-') then 1 else 0) == |sg|
      && (sg != "" ==> s[0] == sg[0])
      && DigitRunEnd(s, |sg|) == |sg| + |w| && s[|sg| + |w|] == '.'
      && DigitRunEnd(s, |sg| + |w| + 1) == |sg| + |w| + 1 + |f|
      && s[|sg|..|sg| + |w|] == w && s[|sg| + |w| + 1..|sg| + |w| + 1 + |f|] == f
  {
    var s := sg + w + "." + f + junk;
    assert s == sg + w + ("." + f + junk);
    DigitRunOver(sg, w, "." + f + junk);
    assert s == (sg + w + ".") + f + junk;
    DigitRunOver(sg + w + ".", f, junk);
    assert s[|sg| + |w|] == '.';
    assert s[|sg|..|sg| + |w|] == w;
    assert s[|sg| + |w| + 1..|sg| + |w| + 1 + |f|] == f;
    if sg == "" {
      assert s[0] == if |w| > 0 then w[0] else '.';
    }
  }

  /** Signed whole numbers, such as "-20" or "+7", parse up to the first
      character that is neither a digit nor a point. */
  lemma ParseSignedInteger(sg: string, w: string, junk: string)
    requires IsSignText(sg) && AllDigits(w) && |w| >= 1
    requires junk == [] || (!IsDigit(junk[0]) && junk[0] != '.')
    ensures ParseDecimalPrefix(sg + w + junk) == Some(Signed(sg, DigitsValue(w) as real))
  {
    SignedIntegerLayout(sg, w, junk);
    var s := sg + w + junk;
    assert s[|sg| + |w|..|sg| + |w|] == "";
  }

  /** Where the sign and the digit run of `sg w junk` lie. */
  lemma SignedIntegerLayout(sg: string, w: string, junk: string)
    requires IsSignText(sg) && AllDigits(w) && |w| >= 1
    requires junk == [] || (!IsDigit(junk[0]) && junk[0] != '.')
    ensures var s := sg + w + junk;
      && (if |s| > 0 && (s[0] == '+' || s[0] == '-') then 1 else 0) == |sg|
      && (sg != "" ==> s[0] == sg[0])
      && DigitRunEnd(s, |sg|) == |sg| + |w|
      && (|sg| + |w| == |s| || s[|sg| + |w|] != '.')
      && s[|sg|..|sg| + |w|] == w
  {
    var s := sg + w + junk;
    DigitRunOver(sg, w, junk);
    assert s[|sg|..|sg| + |w|] == w;
    if sg == "" {
      assert s[0] == w[0];
    }
    if junk != [] {
      assert s[|sg| + |w|] == junk[0];
    }
  }

  /** Text of a minus sign and digits reaches `parseFloat` unchanged and reads
      as the negated digits: "-20" is -20. */
  lemma NegativeTextParses(w: string)
    requires AllDigits(w) && |w| >= 1
    ensures ParseNumber(Str("-" + w)) == -(DigitsValue(w) as real)
  {
    var s := "-" + w;
    forall k | 0 <= k < |s|
      ensures !IsCurrencyNoise(s[k]) && s[k] != ','
    {
      if k > 0 {
        assert s[k] == w[k - 1];
      }
    }
    TrimKeepsTrimmed(s);
    RemoveNothing(s);
    assert ',' !in s;
    ParseSignedInteger("-", w, "");
    assert "-" + w + "" == s;
  }

  /** A negative GGR with no bet column becomes a positive loss: a GGR of "-20" is a loss of 20. */
  lemma NegativeGgrIsLoss(win: Option<Cell>, w: string)
    requires AllDigits(w) && |w| >= 1
    ensures DeriveLoss(None, win, Some(Str("-" + w))) == DigitsValue(w) as real
  {
    NegativeTextParses(w);
  }

  /** Text free of currency marks and whitespace only has its lone comma turned into a point. */
  lemma CleanNumberTextOfPlain(s: string)
    requires forall k :: 0 <= k < |s| ==> !IsCurrencyNoise(s[k])
    ensures CleanNumberText(s) == if ',' in s && '.' !in s then ReplaceFirst(s, ',', '.') else s
  {
    RemoveNothing(s);
  }

  /** Stripping currency marks first changes nothing: cleaning is idempotent on that step. */
  lemma CleanNumberTextStrips(s: string)
    ensures CleanNumberText(RemoveWhere(s, IsCurrencyNoise)) == CleanNumberText(s)
  {
    RemoveNothing(RemoveWhere(s, IsCurrencyNoise));
  }

  /** A run of digits from `i` to `j` followed by a non-digit (or the end) ends at `j`. */
  lemma {:induction false} DigitRunEndAt(s: string, i: nat, j: nat)
    requires i <= j <= |s|
    requires forall k :: i <= k < j ==> IsDigit(s[k])
    requires j == |s| || !IsDigit(s[j])
    ensures DigitRunEnd(s, i) == j
    decreases j - i
  {
    if i < j {
      DigitRunEndAt(s, i + 1, j);
    }
  }

  /** A digit string holds no non-digit character. */
  lemma NoneOutsideDigits(w: string, c: char)
    requires AllDigits(w) && !IsDigit(c)
    ensures c !in w
  {
    assert forall k :: 0 <= k < |w| ==> w[k] != c;
  }

  /** Text made only of digits, points and commas. */
  predicate PlainNumberText(s: string) {
    forall k :: 0 <= k < |s| ==> IsDigit(s[k]) || s[k] == '.' || s[k] == ','
  }

  lemma PlainConcat(a: string, b: string)
    requires PlainNumberText(a) && PlainNumberText(b)
    ensures PlainNumberText(a + b)
  {
    forall k | 0 <= k < |a + b|
      ensures IsDigit((a + b)[k]) || (a + b)[k] == '.' || (a + b)[k] == ','
    {
      if k < |a| {
        assert (a + b)[k] == a[k];
      } else {
        assert (a + b)[k] == b[k - |a|];
      }
    }
  }

  /** A digit, point or comma is neither whitespace nor a currency mark. */
  lemma PlainCharIsNotNoise(c: char)
    requires IsDigit(c) || c == '.' || c == ','
    ensures !IsCurrencyNoise(c)
  {
  }

  /** Plain number text passes `trim` unchanged. */
  lemma PlainIsTrimmed(s: string)
    requires PlainNumberText(s) && |s| >= 1
    ensures Trim(s) == s
  {
    PlainCharIsNotNoise(s[0]);
    PlainCharIsNotNoise(s[|s| - 1]);
    TrimKeepsTrimmed(s);
  }

  /** Plain number text passes the currency-mark removal unchanged. */
  lemma PlainIsUnstripped(s: string)
    requires PlainNumberText(s)
    ensures RemoveWhere(s, IsCurrencyNoise) == s
  {
    forall k | 0 <= k < |s|
      ensures !IsCurrencyNoise(s[k])
    {
      PlainCharIsNotNoise(s[k]);
    }
    RemoveNothing(s);
  }

  lemma {:induction false} RemoveNothing(s: string)
    requires forall k :: 0 <= k < |s| ==> !IsCurrencyNoise(s[k])
    ensures RemoveWhere(s, IsCurrencyNoise) == s
  {
    if s != [] {
      assert forall k :: 0 <= k < |s[1..]| ==> s[1..][k] == s[k + 1];
      RemoveNothing(s[1..]);
      assert [s[0]] + s[1..] == s;
    }
  }

  /** Replacing the first comma of `w,frac` gives `w.frac`. */
  lemma ReplaceLoneComma(w: string, frac: string)
    requires AllDigits(w)
    ensures ReplaceFirst(w + "," + frac, ',', '.') == w + "." + frac
  {
    var s := w + "," + frac;
    NoneOutsideDigits(w, ',');
    assert s[..|w|] == w;
    ReplaceFirstAt(s, ',', '.', |w|);
    assert s[|w| + 1..] == frac;
  }

  /** A lone decimal comma between digit runs is turned into a point. */
  lemma CommaBecomesPoint(w: string, frac: string)
    requires AllDigits(w) && |w| >= 1 && AllDigits(frac)
    ensures Trim(w + "," + frac) == w + "," + frac
    ensures CleanNumberText(w + "," + frac) == w + "." + frac
  {
    var s := w + "," + frac;
    PlainConcat(w, ",");
    PlainConcat(w + ",", frac);
    PlainIsTrimmed(s);
    PlainIsUnstripped(s);
    NoneOutsideDigits(w, '.');
    NoneOutsideDigits(frac, '.');
    assert '.' !in s;
    assert s[|w|] == ',';
    ReplaceLoneComma(w, frac);
  }

  /** The plain Brazilian decimal comma: "123,45" parses as 123.45. */
  lemma DecimalCommaParses(w: string, frac: string)
    requires AllDigits(w) && |w| >= 1 && AllDigits(frac)
    ensures ParseNumber(Str(w + "," + frac)) == DecimalValue(w, frac)
  {
    CommaBecomesPoint(w, frac);
    ParseStopsAtJunk(w, frac, "");
    assert w + "." + frac + "" == w + "." + frac;
  }

  /** With both separators present the comma is left alone and parsing stops at
      it: "1.234,56" reads as 1.234, the thousands point taken for a decimal point. */
  lemma ThousandsSeparatorMisread(w: string, g: string, f: string)
    requires AllDigits(w) && |w| >= 1 && AllDigits(g) && AllDigits(f)
    ensures ParseNumber(Str(w + "." + g + "," + f)) == DecimalValue(w, g)
  {
    var s := w + "." + g + "," + f;
    var junk := "," + f;
    GroupedTextIsPlain(w, g, f);
    assert s[|w|] == '.';
    PointTextIsClean(s);
    ParseStopsAtJunk(w, g, junk);
    AppendAssociates(w + "." + g, ",", f);
  }

  lemma AppendAssociates(a: string, b: string, c: string)
    ensures a + b + c == a + (b + c)
  {
  }

  lemma GroupedTextIsPlain(w: string, g: string, f: string)
    requires AllDigits(w) && AllDigits(g) && AllDigits(f)
    ensures PlainNumberText(w + "." + g + "," + f)
  {
    PlainConcat(w, ".");
    PlainConcat(w + ".", g);
    PlainConcat(w + "." + g, ",");
    PlainConcat(w + "." + g + ",", f);
  }

  /** Plain number text holding a point reaches `parseFloat` unchanged. */
  lemma PointTextIsClean(s: string)
    requires PlainNumberText(s) && |s| >= 1 && '.' in s
    ensures Trim(s) == s && CleanNumberText(s) == s
  {
    PlainIsTrimmed(s);
    PlainIsUnstripped(s);
  }

  /** The currency prefix "R$ " is stripped before parsing. */
  lemma RemoveCurrencyPrefix(t: string)
    ensures RemoveWhere("R$ " + t, IsCurrencyNoise) == RemoveWhere(t, IsCurrencyNoise)
  {
    var s := "R$ " + t;
    assert s[0] == 'R' && s[1..] == "$ " + t;
    assert RemoveWhere(s, IsCurrencyNoise) == RemoveWhere("$ " + t, IsCurrencyNoise);
    assert ("$ " + t)[0] == '$' && ("$ " + t)[1..] == " " + t;
    assert RemoveWhere("$ " + t, IsCurrencyNoise) == RemoveWhere(" " + t, IsCurrencyNoise);
    assert (" " + t)[0] == ' ' && (" " + t)[1..] == t;
  }

  /** Currency marks are ignored: "R$ 100,50" reads as 100.5. */
  lemma CurrencyTextParses(w: string, frac: string)
    requires AllDigits(w) && |w| >= 1 && AllDigits(frac)
    ensures ParseNumber(Str("R$ " + w + "," + frac)) == DecimalValue(w, frac)
  {
    var t := w + "," + frac;
    assert "R$ " + w + "," + frac == "R$ " + t;
    PlainConcat(w, ",");
    PlainConcat(w + ",", frac);
    CurrencyPrefixDropped(t);
    PlainIsTrimmed(t);
    DecimalCommaParses(w, frac);
  }

  /** Text behind the prefix "R$ " is parsed as if the prefix were absent. */
  lemma CurrencyPrefixDropped(t: string)
    requires PlainNumberText(t) && |t| >= 1
    ensures Trim("R$ " + t) == "R$ " + t
    ensures CleanNumberText("R$ " + t) == CleanNumberText(t)
  {
    var s := "R$ " + t;
    PlainCharIsNotNoise(t[|t| - 1]);
    assert s[|s| - 1] == t[|t| - 1];
    TrimKeepsTrimmed(s);
    RemoveCurrencyPrefix(t);
  }

  // ---------------------------------------------------------------------------
  // Loss derivation

  /** The loss of one row: bet − win when both columns resolve, else the GGR
      value, made positive only when it is negative and no bet column resolved,
      else 0. */
  function DeriveLoss(bet: Option<Cell>, win: Option<Cell>, ggr: Option<Cell>): (loss: real)
    ensures bet.Some? && win.Some? ==> loss == ParseNumber(bet.value) - ParseNumber(win.value)
    ensures bet.None? && ggr.Some? ==> loss >= 0.0 && (loss == ParseNumber(ggr.value) || loss == -ParseNumber(ggr.value))
    ensures bet.Some? && win.None? && ggr.Some? ==> loss == ParseNumber(ggr.value)
    ensures (bet.None? || win.None?) && ggr.None? ==> loss == 0.0
  {
    if bet.Some? && win.Some? then ParseNumber(bet.value) - ParseNumber(win.value)
    else if ggr.Some? then
      var v := ParseNumber(ggr.value);
      if v < 0.0 && bet.None? then -v else v
    else 0.0
  }
}
