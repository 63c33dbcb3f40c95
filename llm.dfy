/** The LLM adapter (`src/llm.py`): Japanese era years, the selection of the
    JSON part of a reply, the ordered model fallback with its per-model 429
    cooldown and acceptance rule, and removal of a failed model. The HTTP call
    is given as its reply per list position and `json.loads` as a parameter. */
module Llm {
  import opened Wrappers
  import opened Text
  import opened Json

  // ------------------------------------------------------------ era years

  /** `ERA_PATTERNS`: each era name with the base year its year 1 is counted from. */
  const EraPatterns: seq<(string, nat)> :=
    [("令和", 2019), ("平成", 1989), ("昭和", 1926), ("大正", 1912), ("明治", 1867)]

  /** `era` followed by a digit occurs at position `i` of `text` (a match of `era(\d+)`). */
  predicate EraAt(text: string, era: string, i: nat) {
    i + |era| < |text| && text[i..i + |era|] == era && IsDigit(text[i + |era|])
  }

  /** `re.search`: the leftmost position at or after `i` where `era` matches. */
  function EraSearch(text: string, era: string, i: nat): (r: Option<nat>)
    ensures r.Some? ==> i <= r.value && EraAt(text, era, r.value)
    ensures r.Some? ==> forall j: nat :: i <= j < r.value ==> !EraAt(text, era, j)
    ensures r.None? ==> forall j: nat :: i <= j ==> !EraAt(text, era, j)
    decreases |text| - i
  {
    if i >= |text| then None
    else if EraAt(text, era, i) then Some(i)
    else EraSearch(text, era, i + 1)
  }

  /** `int(match.group(1))`: the value of the greedy digit run after the era name. */
  function EraNumber(text: string, era: string, i: nat): nat
    requires EraAt(text, era, i)
  {
    DigitsValue(DigitRun(text[i + |era|..]))
  }

  /** The patterns from position `k` on: the first that matches gives `base + n - 1`. */
  function ConvertEraFrom(text: string, k: nat): (r: string)
    decreases |EraPatterns| - k
  {
    if k >= |EraPatterns| then text
    else
      match EraSearch(text, EraPatterns[k].0, 0)
      case Some(i) => NatToString(EraPatterns[k].1 + EraNumber(text, EraPatterns[k].0, i) - 1)
      case None => ConvertEraFrom(text, k + 1)
  }

  /** `convert_japanese_era_to_western`: the Western year of the first era in
      pattern order that occurs followed by digits; empty text, and text with no
      such match, come back unchanged. */
  function ConvertEra(text: string): (r: string)
    ensures r == text || (|r| >= 1 && AllDigits(r) && forall i :: 0 <= i < |r| ==> '0' <= r[i] <= '9')
  {
    if text == "" then text else ConvertEraFromShape(text, 0); ConvertEraFrom(text, 0)
  }

  lemma {:induction false} ConvertEraFromShape(text: string, k: nat)
    ensures var r := ConvertEraFrom(text, k);
      r == text || (|r| >= 1 && AllDigits(r) && forall i :: 0 <= i < |r| ==> '0' <= r[i] <= '9')
    decreases |EraPatterns| - k
  {
    if k < |EraPatterns| && EraSearch(text, EraPatterns[k].0, 0).None? {
      ConvertEraFromShape(text, k + 1);
    }
  }

  /** Text in which no era name is followed by a digit is returned unchanged. */
  lemma {:induction false} ConvertEraNoMatch(text: string)
    requires forall k: nat, j: nat :: k < |EraPatterns| ==> !EraAt(text, EraPatterns[k].0, j)
    ensures ConvertEra(text) == text
  {
    if text != "" {
      NoMatchFrom(text, 0);
    }
  }

  lemma {:induction false} NoMatchFrom(text: string, k: nat)
    requires forall k: nat, j: nat :: k < |EraPatterns| ==> !EraAt(text, EraPatterns[k].0, j)
    ensures ConvertEraFrom(text, k) == text
    decreases |EraPatterns| - k
  {
    if k < |EraPatterns| {
      assert EraSearch(text, EraPatterns[k].0, 0).None?;
      NoMatchFrom(text, k + 1);
    }
  }

  /** The leftmost match of the first era in pattern order that matches at
      all decides the year, whatever later eras occur in the text. */
  lemma {:induction false} ConvertEraFirstMatch(text: string, k: nat, i: nat)
    requires k < |EraPatterns| && EraAt(text, EraPatterns[k].0, i)
    requires forall j: nat :: j < i ==> !EraAt(text, EraPatterns[k].0, j)
    requires forall k': nat, j: nat :: k' < k ==> !EraAt(text, EraPatterns[k'].0, j)
    ensures ConvertEra(text) == NatToString(EraPatterns[k].1 + EraNumber(text, EraPatterns[k].0, i) - 1)
  {
    FirstMatchFrom(text, 0, k, i);
  }

  lemma {:induction false} FirstMatchFrom(text: string, m: nat, k: nat, i: nat)
    requires m <= k < |EraPatterns| && EraAt(text, EraPatterns[k].0, i)
    requires forall j: nat :: j < i ==> !EraAt(text, EraPatterns[k].0, j)
    requires forall k': nat, j: nat :: k' < k ==> !EraAt(text, EraPatterns[k'].0, j)
    ensures ConvertEraFrom(text, m) == NatToString(EraPatterns[k].1 + EraNumber(text, EraPatterns[k].0, i) - 1)
    decreases k - m
  {
    if m < k {
      SearchFindsNone(text, EraPatterns[m].0);
      FirstMatchFrom(text, m + 1, k, i);
    } else {
      SearchFindsFirst(text, EraPatterns[k].0, i);
    }
  }

  lemma SearchFindsNone(text: string, era: string)
    requires forall j: nat :: !EraAt(text, era, j)
    ensures EraSearch(text, era, 0).None?
  {
  }

  lemma SearchFindsFirst(text: string, era: string, i: nat)
    requires EraAt(text, era, i) && forall j: nat :: j < i ==> !EraAt(text, era, j)
    ensures EraSearch(text, era, 0) == Some(i)
  {
  }

  /** An era name, a year number `n` and text that does not go on with a
      digit convert to `base + n - 1`, when no earlier-listed era matches. */
  lemma ConvertEraYear(k: nat, n: nat, rest: string)
    requires k < |EraPatterns|
    requires rest == [] || !IsDigit(rest[0])
    requires forall k': nat, j: nat :: k' < k ==> !EraAt(EraPatterns[k].0 + NatToString(n) + rest, EraPatterns[k'].0, j)
    ensures ConvertEra(EraPatterns[k].0 + NatToString(n) + rest) == NatToString(EraPatterns[k].1 + n - 1)
  {
    NatToStringRoundTrip(n);
    ConvertEraDigits(k, NatToString(n), rest);
  }

  /** The same for any run of digits `d` after the era name. */
  lemma ConvertEraDigits(k: nat, d: string, rest: string)
    requires k < |EraPatterns| && d != [] && AllDigits(d)
    requires rest == [] || !IsDigit(rest[0])
    requires forall k': nat, j: nat :: k' < k ==> !EraAt(EraPatterns[k].0 + d + rest, EraPatterns[k'].0, j)
    ensures ConvertEra(EraPatterns[k].0 + d + rest) == NatToString(EraPatterns[k].1 + DigitsValue(d) - 1)
  {
    EraThenDigits(EraPatterns[k].0, d, rest);
    ConvertEraFirstMatch(EraPatterns[k].0 + d + rest, k, 0);
  }

  /** An era name followed by the digit run `d` matches at the start, with
      the value of `d` as its number. */
  lemma EraThenDigits(era: string, d: string, rest: string)
    requires d != [] && AllDigits(d)
    requires rest == [] || !IsDigit(rest[0])
    ensures EraAt(era + d + rest, era, 0) && EraNumber(era + d + rest, era, 0) == DigitsValue(d)
  {
    var text := era + d + rest;
    assert text[..|era|] == era;
    assert text[|era|] == d[0];
    assert text[|era|..] == d + rest;
    DigitRunConcat(d, rest);
  }

  /** An era name cannot match in text that lacks its first character. */
  lemma NoEraWithout(text: string, era: string)
    requires |era| >= 1 && era[0] !in text
    ensures forall j: nat :: !EraAt(text, era, j)
  {
    forall j: nat | j + |era| < |text| ensures !EraAt(text, era, j) {
      assert text[j..j + |era|][0] == text[j];
    }
  }

  /** No era name starts with a digit, so a string of digits has no match. */
  lemma NoEraInDigits(text: string)
    requires forall i :: 0 <= i < |text| ==> '0' <= text[i] <= '9'
    ensures forall k: nat, j: nat :: k < |EraPatterns| ==> !EraAt(text, EraPatterns[k].0, j)
  {
    forall k: nat | k < |EraPatterns| ensures forall j: nat :: !EraAt(text, EraPatterns[k].0, j) {
      NoEraWithout(text, EraPatterns[k].0);
    }
  }

  /** Converting a converted year again changes nothing. */
  lemma ConvertEraIdempotent(text: string)
    ensures ConvertEra(ConvertEra(text)) == ConvertEra(text)
  {
    var r := ConvertEra(text);
    if r != text {
      NoEraInDigits(r);
      ConvertEraNoMatch(r);
    }
  }

  lemma ConvertEraReiwa1()
    ensures ConvertEra("令和1年") == "2019"
  {
    var t := EraPatterns[0].0 + NatToString(1) + "年";
    ConvertEraYear(0, 1, "年");
    assert t == "令和1年";
    Year2019();
  }

  lemma Year1867()
    ensures NatToString(1867) == "1867"
  {
    assert NatToString(1) == "1";
    assert NatToString(18) == NatToString(1) + "8";
    assert NatToString(186) == NatToString(18) + "6";
    assert NatToString(1867) == NatToString(186) + "7";
  }

  lemma Year2019()
    ensures NatToString(2019) == "2019"
  {
    assert NatToString(20) == "20";
    assert NatToString(201) == "201";
  }

  lemma ConvertEraHeisei31()
    ensures ConvertEra("平成31年") == "2019"
  {
    var n := NatToString(31);
    assert n == "31" by { assert NatToString(3) == "3"; }
    var t := EraPatterns[1].0 + n + "年";
    assert t == "平成31年";
    NoEraWithout(t, EraPatterns[0].0);
    ConvertEraYear(1, 31, "年");
    Year2019();
  }

  /** The Meiji pattern counts from 1867, so its year 1 is 1867. */
  lemma ConvertEraMeiji1()
    ensures ConvertEra("明治1年") == "1867"
  {
    var t := EraPatterns[4].0 + NatToString(1) + "年";
    assert t == "明治1年";
    NoEraWithout(t, EraPatterns[0].0);
    NoEraWithout(t, EraPatterns[1].0);
    NoEraWithout(t, EraPatterns[2].0);
    NoEraWithout(t, EraPatterns[3].0);
    ConvertEraYear(4, 1, "年");
    Year1867();
  }

  const BuildYear := "build_year"

  /** `_convert_era_in_properties`: a truthy `build_year` is replaced by the
      conversion of its `str()`; every other key, and a falsy or missing
      `build_year`, are untouched. */
  function ConvertEraInProperties(p: Props): (q: Props)
    ensures q.Keys == p.Keys
    ensures forall k :: k in p && k != BuildYear ==> q[k] == p[k]
    ensures BuildYear in p && Truthy(p[BuildYear]) ==> q[BuildYear] == Str(ConvertEra(PyStr(p[BuildYear])))
    ensures !(BuildYear in p && Truthy(p[BuildYear])) ==> q == p
  {
    if BuildYear in p && Truthy(p[BuildYear]) then p[BuildYear := Str(ConvertEra(PyStr(p[BuildYear])))] else p
  }

  /** A Western year given as a number becomes the same year as text. */
  lemma BuildYearNumber(p: Props, n: nat)
    requires BuildYear in p && p[BuildYear] == Int(n) && n != 0
    ensures ConvertEraInProperties(p)[BuildYear] == Str(NatToString(n))
  {
    NoEraInDigits(NatToString(n));
    ConvertEraNoMatch(NatToString(n));
  }

  // ---------------------------------------------------------------- replies

  /** `_extract_json`: `json.loads` of the first-'{'-to-last-'}' part of the
      reply; None stands for the `ValueError` (no such part, or a parse error). */
  function ExtractJson(text: string, parse: string -> Option<Props>): (r: Option<Props>)
    ensures JsonSlice(text).None? ==> r.None?
    ensures JsonSlice(text).Some? ==> r == parse(JsonSlice(text).value)
  {
    match JsonSlice(text)
    case None => None
    case Some(s) => parse(s)
  }

  /** The key under which the reply is tagged with the model that produced it. */
  const ModelTag := "_extracted_by_model"

  /** A value the acceptance rule counts: not None, not "", and not a string
      starting with '_'. */
  predicate Meaningful(v: Value) {
    !v.Null? && !(v.Str? && (v.s == "" || StartsWith(v.s, "_")))
  }

  function MeaningfulKeys(p: Props): set<string> {
    set k | k in p && Meaningful(p[k])
  }

  function MeaningfulCount(p: Props): nat {
    |MeaningfulKeys(p)|
  }

  /** The model-name tag is itself counted, so a reply with two meaningful
      fields of its own reaches the threshold of three. */
  lemma {:induction false} TagCounts(p: Props, model: string)
    requires model != "" && !StartsWith(model, "_")
    ensures MeaningfulCount(p[ModelTag := Str(model)]) == MeaningfulCount(p - {ModelTag}) + 1
  {
    var q := p[ModelTag := Str(model)];
    var a := MeaningfulKeys(q);
    var b := MeaningfulKeys(p - {ModelTag});
    assert Meaningful(q[ModelTag]);
    forall k ensures k in a <==> k in b || k == ModelTag {
      if k != ModelTag {
        assert k in q <==> k in p - {ModelTag};
        if k in q { assert q[k] == (p - {ModelTag})[k]; }
      }
    }
    assert a == b + {ModelTag};
    assert ModelTag !in b;
  }

  /** Python's behaviour on what the model returned: an HTTP status error, any
      other failure (network, malformed envelope), or the message content. */
  datatype Reply = Content(text: string) | HttpError(status: int) | Failure

  /** What one call of a model yields: the tagged and era-converted
      properties when the reply parses and passes the acceptance rule. */
  function Attempt(reply: Reply, parse: string -> Option<Props>, model: string): Option<Props> {
    match reply
    case Content(text) =>
      (match ExtractJson(text, parse)
       case Some(p) =>
         var q := ConvertEraInProperties(p[ModelTag := Str(model)]);
         if MeaningfulCount(q) >= 3 then Some(q) else None
       case None => None)
    case HttpError(_) => None
    case Failure => None
  }

  /** A reply is accepted exactly when it is content whose JSON part parses
      and, tagged and era-converted, has at least three meaningful values; the
      accepted properties carry the model's name under the tag. */
  lemma AttemptAccepts(reply: Reply, parse: string -> Option<Props>, model: string)
    ensures var r := Attempt(reply, parse, model);
      (r.Some? <==>
         reply.Content? && ExtractJson(reply.text, parse).Some?
         && MeaningfulCount(ConvertEraInProperties(ExtractJson(reply.text, parse).value[ModelTag := Str(model)])) >= 3)
      && (r.Some? ==>
            r.value == ConvertEraInProperties(ExtractJson(reply.text, parse).value[ModelTag := Str(model)])
            && ModelTag in r.value && r.value[ModelTag] == Str(model) && MeaningfulCount(r.value) >= 3)
  {
  }

  // --------------------------------------------------------------- fallback

  /** `rate_limit_cooldown` in seconds. */
  const Cooldown: real := 60.0

  /** The model had a 429 less than `Cooldown` seconds before `now`. */
  predicate CoolingDown(times: map<string, real>, model: string, now: real) {
    model in times && now - times[model] < Cooldown
  }

  /** A 429 reply records the time for the model; any other reply records nothing. */
  function Record(times: map<string, real>, model: string, reply: Reply, now: real): map<string, real> {
    if reply == HttpError(429) then times[model := now] else times
  }

  /** The loop reads `time.time()` afresh at each position: `clock(2 * i)`
      when it looks at the cooldown of position `i`, and `clock(2 * i + 1)`
      when it stamps a 429 from that position's call. */
  function CheckTime(clock: nat -> real, i: nat): real { clock(2 * i) }

  function StampTime(clock: nat -> real, i: nat): real { clock(2 * i + 1) }

  /** Time does not run backwards. */
  ghost predicate Monotone(clock: nat -> real) {
    forall a: nat, b: nat :: a <= b ==> clock(a) <= clock(b)
  }

  datatype Outcome = Won(index: nat, props: Props) | AllFailed

  /** The result of trying the models: who won, the 429 times afterwards,
      and the list positions that were called, in order. */
  datatype Run = Run(outcome: Outcome, times: map<string, real>, called: seq<nat>)

  /** The `for model in self.models[:]` loop from position `i` on. */
  function Fallback(models: seq<string>, times: map<string, real>, clock: nat -> real,
                    reply: nat -> Reply, parse: string -> Option<Props>, i: nat): (r: Run)
    ensures forall k :: 0 <= k < |r.called| ==> i <= r.called[k] < |models|
    ensures r.outcome.Won? ==>
              r.called != [] && r.called[|r.called| - 1] == r.outcome.index
              && r.outcome.index < |models|
    decreases |models| - i
  {
    if i >= |models| then Run(AllFailed, times, [])
    else if CoolingDown(times, models[i], CheckTime(clock, i)) then Fallback(models, times, clock, reply, parse, i + 1)
    else
      var a := Attempt(reply(i), parse, models[i]);
      if a.Some? then Run(Won(i, a.value), times, [i])
      else
        var rest := Fallback(models, Record(times, models[i], reply(i), StampTime(clock, i)), clock, reply, parse, i + 1);
        assert forall k :: 1 <= k < |[i] + rest.called| ==> ([i] + rest.called)[k] == rest.called[k - 1];
        Run(rest.outcome, rest.times, [i] + rest.called)
  }

  /** One step of the loop: a model cooling down at the time of its check
      is skipped, an accepted reply wins, and a rejected reply records its
      429 at the time of the stamp and moves on. */
  lemma FallbackUnfold(models: seq<string>, times: map<string, real>, clock: nat -> real,
                       reply: nat -> Reply, parse: string -> Option<Props>, i: nat)
    requires i < |models|
    ensures CoolingDown(times, models[i], CheckTime(clock, i)) ==>
              Fallback(models, times, clock, reply, parse, i) == Fallback(models, times, clock, reply, parse, i + 1)
    ensures !CoolingDown(times, models[i], CheckTime(clock, i)) && Attempt(reply(i), parse, models[i]).Some? ==>
              Fallback(models, times, clock, reply, parse, i) == Run(Won(i, Attempt(reply(i), parse, models[i]).value), times, [i])
    ensures !CoolingDown(times, models[i], CheckTime(clock, i)) && Attempt(reply(i), parse, models[i]).None? ==>
              var rest := Fallback(models, Record(times, models[i], reply(i), StampTime(clock, i)), clock, reply, parse, i + 1);
              Fallback(models, times, clock, reply, parse, i) == Run(rest.outcome, rest.times, [i] + rest.called)
  {
  }

  /** The winner is the model whose reply was accepted, with the accepted
      properties. */
  lemma {:induction false} FallbackWon(models: seq<string>, times: map<string, real>, clock: nat -> real,
                                       reply: nat -> Reply, parse: string -> Option<Props>, i: nat)
    ensures var r := Fallback(models, times, clock, reply, parse, i);
            r.outcome.Won? ==> Attempt(reply(r.outcome.index), parse, models[r.outcome.index]) == Some(r.outcome.props)
    decreases |models| - i
  {
    if i < |models| {
      if CoolingDown(times, models[i], CheckTime(clock, i)) {
        FallbackWon(models, times, clock, reply, parse, i + 1);
      } else if Attempt(reply(i), parse, models[i]).None? {
        FallbackWon(models, Record(times, models[i], reply(i), StampTime(clock, i)), clock, reply, parse, i + 1);
      }
    }
  }

  /** The winner's properties name it and pass the acceptance rule. */
  lemma FallbackWinner(models: seq<string>, times: map<string, real>, clock: nat -> real,
                       reply: nat -> Reply, parse: string -> Option<Props>, i: nat)
    requires Fallback(models, times, clock, reply, parse, i).outcome.Won?
    ensures var o := Fallback(models, times, clock, reply, parse, i).outcome;
      o.index < |models| && ModelTag in o.props && o.props[ModelTag] == Str(models[o.index])
      && MeaningfulCount(o.props) >= 3
  {
    var o := Fallback(models, times, clock, reply, parse, i).outcome;
    FallbackWon(models, times, clock, reply, parse, i);
    AttemptAccepts(reply(o.index), parse, models[o.index]);
  }

  predicate Increasing(c: seq<nat>) {
    forall a, b :: 0 <= a < b < |c| ==> c[a] < c[b]
  }

  /** Models are called in list order, each position at most once. */
  lemma {:induction false} FallbackInOrder(models: seq<string>, times: map<string, real>, clock: nat -> real,
                                           reply: nat -> Reply, parse: string -> Option<Props>, i: nat)
    ensures Increasing(Fallback(models, times, clock, reply, parse, i).called)
    decreases |models| - i
  {
    if i < |models| {
      var t := Record(times, models[i], reply(i), StampTime(clock, i));
      if CoolingDown(times, models[i], CheckTime(clock, i)) {
        FallbackInOrder(models, times, clock, reply, parse, i + 1);
      } else if Attempt(reply(i), parse, models[i]).None? {
        FallbackInOrder(models, t, clock, reply, parse, i + 1);
        var rest := Fallback(models, t, clock, reply, parse, i + 1).called;
        var c := [i] + rest;
        assert Fallback(models, times, clock, reply, parse, i).called == c;
        forall a, b | 0 <= a < b < |c| ensures c[a] < c[b] {
          assert c[b] == rest[b - 1];
          if a > 0 { assert c[a] == rest[a - 1]; }
        }
      }
    }
  }

  /** Every listed position holds a model whose reply was rejected. */
  predicate Rejected(models: seq<string>, reply: nat -> Reply, parse: string -> Option<Props>, c: seq<nat>) {
    forall k :: 0 <= k < |c| ==> c[k] < |models| && Attempt(reply(c[k]), parse, models[c[k]]).None?
  }

  /** The calls made before the winner, or all calls when nobody won. */
  function Losers(r: Run): seq<nat> {
    if r.outcome.Won? && r.called != [] then r.called[..|r.called| - 1] else r.called
  }

  /** Every call except the winning last one was rejected. */
  lemma {:induction false} FallbackRejected(models: seq<string>, times: map<string, real>, clock: nat -> real,
                                            reply: nat -> Reply, parse: string -> Option<Props>, i: nat)
    ensures Rejected(models, reply, parse, Losers(Fallback(models, times, clock, reply, parse, i)))
    decreases |models| - i
  {
    if i < |models| {
      var t := Record(times, models[i], reply(i), StampTime(clock, i));
      if CoolingDown(times, models[i], CheckTime(clock, i)) {
        FallbackRejected(models, times, clock, reply, parse, i + 1);
      } else if Attempt(reply(i), parse, models[i]).None? {
        FallbackRejected(models, t, clock, reply, parse, i + 1);
        var rest := Fallback(models, t, clock, reply, parse, i + 1);
        var c := [i] + rest.called;
        assert Fallback(models, times, clock, reply, parse, i) == Run(rest.outcome, rest.times, c);
        assert Losers(Run(rest.outcome, rest.times, c)) == [i] + Losers(rest);
      } else {
        assert Losers(Fallback(models, times, clock, reply, parse, i)) == [];
      }
    }
  }

  /** A 429 stamp no earlier than the entry it replaces never ends a
      cooldown that holds at time `now`. */
  lemma RecordKeepsCooling(times: map<string, real>, m: string, m': string, reply: Reply, stamp: real, now: real)
    requires CoolingDown(times, m, now) && times[m] <= stamp
    ensures CoolingDown(Record(times, m', reply, stamp), m, now)
  {
  }

  /** A position is not called when its model's 429 entry from before the
      loop is still less than `Cooldown` old at the time the loop reaches
      that position. A model that was cooling down when the loop started
      but whose cooldown has run out by then may be called. */
  lemma {:induction false} FallbackSkipsCooling(models: seq<string>, times: map<string, real>, clock: nat -> real,
                                                reply: nat -> Reply, parse: string -> Option<Props>, i: nat, j: nat)
    requires Monotone(clock)
    requires i <= j < |models| && CoolingDown(times, models[j], CheckTime(clock, j))
    requires times[models[j]] <= CheckTime(clock, i)
    ensures j !in Fallback(models, times, clock, reply, parse, i).called
    decreases |models| - i
  {
    if i < j {
      var m := models[j];
      var t := Record(times, models[i], reply(i), StampTime(clock, i));
      assert CheckTime(clock, i) <= StampTime(clock, i) <= CheckTime(clock, i + 1) by {
        assert clock(2 * i) <= clock(2 * i + 1) <= clock(2 * (i + 1));
      }
      if CoolingDown(times, models[i], CheckTime(clock, i)) {
        FallbackSkipsCooling(models, times, clock, reply, parse, i + 1, j);
      } else if Attempt(reply(i), parse, models[i]).None? {
        RecordKeepsCooling(times, m, models[i], reply(i), StampTime(clock, i), CheckTime(clock, j));
        assert t[m] <= CheckTime(clock, i + 1);
        FallbackSkipsCooling(models, t, clock, reply, parse, i + 1, j);
      }
    }
  }

  /** After a 429 from a called position, a later position holding the same
      model is skipped in the same loop when the loop reaches it less than
      `Cooldown` after the stamp. */
  lemma FallbackSkipsAfter429(models: seq<string>, times: map<string, real>, clock: nat -> real,
                              reply: nat -> Reply, parse: string -> Option<Props>, i: nat, j: nat)
    requires Monotone(clock)
    requires i < j < |models| && models[i] == models[j] && reply(i) == HttpError(429)
    requires !CoolingDown(times, models[i], CheckTime(clock, i))
    requires CheckTime(clock, j) - StampTime(clock, i) < Cooldown
    ensures j !in Fallback(models, times, clock, reply, parse, i).called
  {
    assert clock(2 * i + 1) <= clock(2 * (i + 1));
    FallbackSkipsCooling(models, Record(times, models[i], reply(i), StampTime(clock, i)), clock, reply, parse, i + 1, j);
  }

  /** The loop does not give up while an acceptable model remains: if the
      model at position `j` is not cooling down when the loop reaches it,
      was not rate-limited earlier in the loop and would give an acceptable
      reply, some model at or before `j` wins. */
  lemma {:induction false} FallbackFindsAcceptable(models: seq<string>, times: map<string, real>, clock: nat -> real,
                                                   reply: nat -> Reply, parse: string -> Option<Props>, i: nat, j: nat)
    requires i <= j < |models| && !CoolingDown(times, models[j], CheckTime(clock, j))
    requires Attempt(reply(j), parse, models[j]).Some?
    requires forall k: nat :: i <= k < j && models[k] == models[j] ==> reply(k) != HttpError(429)
    ensures var o := Fallback(models, times, clock, reply, parse, i).outcome;
      o.Won? && o.index <= j
    decreases j - i
  {
    if i < j && !CoolingDown(times, models[i], CheckTime(clock, i)) && Attempt(reply(i), parse, models[i]).None? {
      FallbackFindsAcceptable(models, Record(times, models[i], reply(i), StampTime(clock, i)), clock, reply, parse, i + 1, j);
    } else if i < j && CoolingDown(times, models[i], CheckTime(clock, i)) {
      FallbackFindsAcceptable(models, times, clock, reply, parse, i + 1, j);
    }
  }

  /** The models whose calls at the listed positions answered 429. */
  ghost function RateLimited(models: seq<string>, reply: nat -> Reply, called: seq<nat>): set<string> {
    set k | k in called && k < |models| && reply(k) == HttpError(429) :: models[k]
  }

  /** `k` is the last listed position whose call of model `m` answered 429. */
  ghost predicate LastLimited(models: seq<string>, reply: nat -> Reply, called: seq<nat>, m: string, k: nat) {
    k in called && k < |models| && models[k] == m && reply(k) == HttpError(429)
    && forall k': nat :: k' in called && k < k' < |models| && models[k'] == m ==> reply(k') != HttpError(429)
  }

  /** `after` keeps every entry of `before` for a model that was not
      rate-limited in `called`, and holds, for each model that was, the
      stamp of its last 429. */
  ghost predicate StampedAt(before: map<string, real>, after: map<string, real>, models: seq<string>,
                            reply: nat -> Reply, called: seq<nat>, clock: nat -> real) {
    (forall m :: m in after <==> m in before || m in RateLimited(models, reply, called))
    && (forall m :: m in after && m !in RateLimited(models, reply, called) ==> after[m] == before[m])
    && (forall m :: m in RateLimited(models, reply, called) ==>
          exists k: nat :: LastLimited(models, reply, called, m, k) && after[m] == StampTime(clock, k))
  }

  /** The 429 times afterwards: each model that answered 429 holds the time
      of its last 429, and every other entry is kept. */
  lemma {:induction false} FallbackTimes(models: seq<string>, times: map<string, real>, clock: nat -> real,
                                         reply: nat -> Reply, parse: string -> Option<Props>, i: nat)
    ensures var r := Fallback(models, times, clock, reply, parse, i);
      StampedAt(times, r.times, models, reply, r.called, clock)
    decreases |models| - i
  {
    if i < |models| {
      if CoolingDown(times, models[i], CheckTime(clock, i)) {
        FallbackTimes(models, times, clock, reply, parse, i + 1);
      } else if Attempt(reply(i), parse, models[i]).None? {
        var t := Record(times, models[i], reply(i), StampTime(clock, i));
        FallbackTimes(models, t, clock, reply, parse, i + 1);
        var rest := Fallback(models, t, clock, reply, parse, i + 1);
        var c := [i] + rest.called;
        assert Fallback(models, times, clock, reply, parse, i) == Run(rest.outcome, rest.times, c);
        assert forall k :: k in c <==> k == i || k in rest.called;
        assert forall k :: k in rest.called ==> i < k;
        StampedStep(times, t, rest.times, models, reply, rest.called, clock, i);
      } else {
        assert Fallback(models, times, clock, reply, parse, i).called == [i];
        assert RateLimited(models, reply, [i]) == {};
      }
    }
  }

  /** The step of `FallbackTimes`: position `i`, called before every listed
      one, records into `t` and the rest of the loop stamps `after`. */
  lemma StampedStep(times: map<string, real>, t: map<string, real>, after: map<string, real>, models: seq<string>,
                    reply: nat -> Reply, rest: seq<nat>, clock: nat -> real, i: nat)
    requires i < |models| && t == Record(times, models[i], reply(i), StampTime(clock, i))
    requires forall k :: k in rest ==> i < k
    requires StampedAt(t, after, models, reply, rest, clock)
    ensures StampedAt(times, after, models, reply, [i] + rest, clock)
  {
    var c := [i] + rest;
    var rl, rc := RateLimited(models, reply, rest), RateLimited(models, reply, c);
    assert forall k :: k in c <==> k == i || k in rest;
    if reply(i) == HttpError(429) {
      assert rc == rl + {models[i]};
      forall m | m in rc
        ensures exists k: nat :: LastLimited(models, reply, c, m, k) && after[m] == StampTime(clock, k)
      {
        if m in rl {
          var k: nat :| LastLimited(models, reply, rest, m, k) && after[m] == StampTime(clock, k);
          assert LastLimited(models, reply, c, m, k);
        } else {
          assert forall k': nat :: k' in rest && k' < |models| && models[k'] == m ==> reply(k') != HttpError(429);
          assert LastLimited(models, reply, c, m, i);
        }
      }
    } else {
      assert rc == rl;
      forall m | m in rc
        ensures exists k: nat :: LastLimited(models, reply, c, m, k) && after[m] == StampTime(clock, k)
      {
        var k: nat :| LastLimited(models, reply, rest, m, k) && after[m] == StampTime(clock, k);
        assert LastLimited(models, reply, c, m, k);
      }
    }
  }

  // -------------------------------------------------------------- model list

  /** `list.remove(x)`: the list without the first occurrence of `x`. */
  function RemoveFirst(s: seq<string>, x: string): (r: seq<string>)
    requires x in s
    ensures |r| == |s| - 1
    ensures multiset(r) == multiset(s) - multiset{x}
  {
    assert s == [s[0]] + s[1..];
    if s[0] == x then s[1..] else [s[0]] + RemoveFirst(s[1..], x)
  }

  /** `list.index(x)`: the first index holding `x`. */
  function FirstIndex(s: seq<string>, x: string): (i: nat)
    requires x in s
    ensures i < |s| && s[i] == x && x !in s[..i]
  {
    if s[0] == x then 0
    else
      assert x in s[1..] by { assert s == [s[0]] + s[1..]; }
      var i := FirstIndex(s[1..], x);
      assert s[..i + 1] == [s[0]] + s[1..][..i];
      i + 1
  }

  /** One step of `RemoveFirst` and `FirstIndex` past a head that is not `x`. */
  lemma RemoveFirstStep(s: seq<string>, x: string)
    requires x in s && s[0] != x
    ensures x in s[1..]
    ensures FirstIndex(s, x) == FirstIndex(s[1..], x) + 1
    ensures RemoveFirst(s, x) == [s[0]] + RemoveFirst(s[1..], x)
  {
    assert s == [s[0]] + s[1..];
  }

  /** Cutting position i out of a list and putting a head back on is cutting
      position i + 1 out of the longer list. */
  lemma ConsCut(a: string, t: seq<string>, i: nat)
    requires i < |t|
    ensures [a] + (t[..i] + t[i + 1..]) == ([a] + t)[..i + 1] + ([a] + t)[i + 2..]
  {
    assert ([a] + t)[..i + 1] == [a] + t[..i];
    assert ([a] + t)[i + 2..] == t[i + 1..];
  }

  /** `RemoveFirst` cuts the list at the first index holding `x`. */
  lemma {:induction false} RemoveFirstAt(s: seq<string>, x: string)
    requires x in s
    ensures RemoveFirst(s, x) == s[..FirstIndex(s, x)] + s[FirstIndex(s, x) + 1..]
  {
    if s[0] != x {
      RemoveFirstStep(s, x);
      RemoveFirstAt(s[1..], x);
      ConsCut(s[0], s[1..], FirstIndex(s[1..], x));
      assert [s[0]] + s[1..] == s;
    }
  }

  datatype ExtractError = NoModels | AllModelsFailed

  class LlmExtractor {
    var models: seq<string>
    var model429Times: map<string, real>
    /** Whether an `update_config_callback` was supplied. */
    const hasCallback: bool

    constructor (models: seq<string>, hasCallback: bool)
      ensures this.models == models && this.hasCallback == hasCallback && model429Times == map[]
    {
      this.models := models;
      this.hasCallback := hasCallback;
      model429Times := map[];
    }

    /** `extract_properties`, where `clock` gives the readings of
        `time.time()` as `Fallback` numbers them: an empty model list fails
        before any call; otherwise the models are tried as in `Fallback`,
        the 429 times are updated by it, and the call fails when no model
        wins. */
    method ExtractProperties(clock: nat -> real, reply: nat -> Reply, parse: string -> Option<Props>)
      returns (result: Result<Props, ExtractError>, called: seq<nat>)
      modifies this`model429Times
      ensures models == [] ==> result == Err(NoModels) && called == [] && model429Times == old(model429Times)
      ensures models != [] ==>
                var run := Fallback(models, old(model429Times), clock, reply, parse, 0);
                called == run.called && model429Times == run.times
                && (run.outcome.Won? ==> result == Ok(run.outcome.props))
                && (run.outcome.AllFailed? ==> result == Err(AllModelsFailed))
    {
      if models == [] {
        return Err(NoModels), [];
      }
      called := [];
      var i := 0;
      while i < |models|
        invariant 0 <= i <= |models|
        invariant var run := Fallback(models, model429Times, clock, reply, parse, i);
          Fallback(models, old(model429Times), clock, reply, parse, 0) == Run(run.outcome, run.times, called + run.called)
      {
        var model := models[i];
        FallbackUnfold(models, model429Times, clock, reply, parse, i);
        if CoolingDown(model429Times, model, clock(2 * i)) {
          i := i + 1;
          continue;
        }
        var r := reply(i);
        var accepted := Attempt(r, parse, model);
        if accepted.Some? {
          called := called + [i];
          return Ok(accepted.value), called;
        }
        ghost var rest := Fallback(models, Record(model429Times, model, r, clock(2 * i + 1)), clock, reply, parse, i + 1);
        assert called + ([i] + rest.called) == (called + [i]) + rest.called;
        called := called + [i];
        if r == HttpError(429) {
          model429Times := model429Times[model := clock(2 * i + 1)];
        }
        i := i + 1;
      }
      result := Err(AllModelsFailed);
    }

    /** `remove_failed_model`: the first occurrence of the name is removed and
        the callback, when there is one, receives a copy of the new list; an
        absent name changes nothing and calls nothing. */
    method RemoveFailedModel(name: string) returns (notified: Option<seq<string>>)
      modifies this`models
      ensures name !in old(models) ==> models == old(models) && notified == None
      ensures name in old(models) ==> models == RemoveFirst(old(models), name)
      ensures name in old(models) && hasCallback ==> notified == Some(models)
      ensures name in old(models) && !hasCallback ==> notified == None
    {
      notified := None;
      if name in models {
        models := RemoveFirst(models, name);
        if hasCallback {
          notified := Some(models);
        }
      }
    }
  }
}
