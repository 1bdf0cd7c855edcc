/** The server settings: a JSON object of saved values over built-in defaults and under the
    environment, shown to the admin as one flat object and saved by merging the admin's changes. */
module Settings {
  import opened Decimal
  import Durations
  import opened GoText
  import opened Wrappers

  datatype Json =
    | JNull
    | JBool(b: bool)
    | JNum(x: real)
    | JStr(s: string)
    | JArr(items: seq<Json>)
    | JObj(fields: map<string, Json>)

  datatype Setting = VBool(b: bool) | VStr(s: string) | VInt(n: int) | VList(items: seq<string>) | VDur(ns: int)

  datatype Kind = KBool | KStr(nullable: bool) | KInt | KList | KDur

  /** One editable setting: its type, its built-in value, and the environment variable that overrides
      it, if one does. */
  datatype Field = Field(kind: Kind, initial: Setting, env: Option<string>)

  /** fixed are the flat keys without a field in the configuration. */
  datatype World = World(schema: map<string, Field>, fixed: map<string, Json>, env: map<string, string>,
                         otherDurations: string -> Option<int>)

  type Config = map<string, Setting>

  predicate Fits(kind: Kind, v: Setting) {
    match kind
    case KBool => v.VBool?
    case KStr(_) => v.VStr?
    case KInt => v.VInt?
    case KList => v.VList?
    case KDur => v.VDur? && MIN_INT64 <= v.ns <= MAX_INT64
  }

  ghost predicate Valid(w: World) {
    && (forall k | k in w.schema :: Fits(w.schema[k].kind, w.schema[k].initial))
    && (forall k | k in w.schema && w.schema[k].kind.KDur? :: w.schema[k].env == None)
    && (forall s | w.otherDurations(s).Some? :: MIN_INT64 <= w.otherDurations(s).value <= MAX_INT64)
  }

  // ---- merging ----

  /** Objects are merged key by key, everything else is replaced. */
  function MergeJson(dst: Json, src: Json): Json
    decreases src
  {
    if dst.JObj? && src.JObj? then
      JObj(map k | k in dst.fields.Keys + src.fields.Keys ::
             if k !in src.fields then dst.fields[k]
             else if k in dst.fields then MergeJson(dst.fields[k], src.fields[k])
             else src.fields[k])
    else src
  }

  /** j holds everything that src sets: its objects inside of objects, its other values as they are. */
  ghost predicate Carries(j: Json, src: Json)
    decreases src
  {
    if src.JObj? then j.JObj? && forall k | k in src.fields :: k in j.fields && Carries(j.fields[k], src.fields[k])
    else j == src
  }

  lemma {:induction false} CarriesItself(j: Json)
    ensures Carries(j, j)
    decreases j
  {
    if j.JObj? {
      forall k | k in j.fields ensures Carries(j.fields[k], j.fields[k]) {
        CarriesItself(j.fields[k]);
      }
    }
  }

  /** A merge carries what was merged in, and what is carried already is merged in without a
      change. */
  lemma {:induction false} MergeCarries(dst: Json, src: Json)
    ensures Carries(MergeJson(dst, src), src)
    ensures MergeJson(dst, src) == dst <==> Carries(dst, src)
    decreases src
  {
    CarriesItself(src);
    if dst.JObj? && src.JObj? {
      var merged := MergeJson(dst, src);
      forall k | k in src.fields
        ensures k in merged.fields && Carries(merged.fields[k], src.fields[k])
        ensures k in dst.fields ==> (merged.fields[k] == dst.fields[k] <==> Carries(dst.fields[k], src.fields[k]))
      {
        CarriesItself(src.fields[k]);
        if k in dst.fields {
          MergeCarries(dst.fields[k], src.fields[k]);
        }
      }
      if Carries(dst, src) {
        assert merged.fields == dst.fields;
      }
    }
  }

  lemma MergeItself(j: Json)
    ensures MergeJson(j, j) == j
  {
    CarriesItself(j);
    MergeCarries(j, j);
  }

  /** Merging a second time changes nothing. */
  lemma MergeAgain(dst: Json, src: Json)
    ensures MergeJson(MergeJson(dst, src), src) == MergeJson(dst, src)
  {
    MergeCarries(dst, src);
    MergeCarries(MergeJson(dst, src), src);
  }

  function Merge(dst: map<string, Json>, src: map<string, Json>): (m: map<string, Json>)
    ensures m.Keys == dst.Keys + src.Keys
    ensures forall k | k in m :: m[k] == MergedAt(dst, src, k)
  {
    MergeJson(JObj(dst), JObj(src)).fields
  }

  /** The value that key k gets. */
  function MergedAt(dst: map<string, Json>, src: map<string, Json>, k: string): Json
    requires k in dst || k in src
  {
    if k !in src then dst[k] else if k in dst then MergeJson(dst[k], src[k]) else src[k]
  }

  /** The merge with only the keys of pending left to do. */
  ghost predicate PartlyMerged(dst: map<string, Json>, src: map<string, Json>, pending: set<string>,
                               merged: map<string, Json>) {
    && merged.Keys == dst.Keys + (src.Keys - pending)
    && forall k | k in merged :: merged[k] == if k in pending then dst[k] else MergedAt(dst, src, k)
  }

  method SrvMergeMaps(dst: map<string, Json>, src: map<string, Json>) returns (merged: map<string, Json>)
    ensures merged == Merge(dst, src)
    decreases JObj(src), 1
  {
    merged := dst;
    var pending := src.Keys;
    while pending != {}
      invariant pending <= src.Keys && PartlyMerged(dst, src, pending, merged)
      decreases |pending|
    {
      var k :| k in pending;
      var v := MergeKey(merged, src, k);
      merged, pending := merged[k := v], pending - {k};
    }
    MergeDone(dst, src, merged);
  }

  lemma MergeDone(dst: map<string, Json>, src: map<string, Json>, merged: map<string, Json>)
    requires PartlyMerged(dst, src, {}, merged)
    ensures merged == Merge(dst, src)
  {
  }

  method MergeKey(merged: map<string, Json>, src: map<string, Json>, k: string) returns (v: Json)
    requires k in src
    ensures v == if k in merged then MergeJson(merged[k], src[k]) else src[k]
    decreases JObj(src), 0
  {
    v := src[k];
    if v.JObj? && k in merged && merged[k].JObj? {
      assert v == JObj(src).fields[k];
      var inner := SrvMergeMaps(merged[k].fields, v.fields);
      v := JObj(inner);
    }
  }

  // ---- reading values ----

  /** Go's conversion of a JSON number to int. */
  function Truncated(x: real): int {
    if x >= 0.0 then x.Floor else -((-x).Floor)
  }

  function Strings(items: seq<Json>): seq<string> {
    if items == [] then [] else (if items[0].JStr? then [items[0].s] else []) + Strings(items[1..])
  }

  /** sbBool, sbStr, sbInt, sbStrSlice and sbDur: a value of the wrong type leaves cur. */
  function Read(w: World, kind: Kind, v: Json, cur: Setting): Setting {
    match kind
    case KBool => if v.JBool? then VBool(v.b) else cur
    case KStr(_) => if v.JStr? then VStr(v.s) else if v.JNull? then VStr("") else cur
    case KInt =>
      if v.JNum? then VInt(Truncated(v.x))
      else if v.JStr? && ParseInt64(TrimSpace(v.s)).Some? then VInt(ParseInt64(TrimSpace(v.s)).value)
      else cur
    case KList => if v.JArr? then VList(Strings(v.items)) else cur
    case KDur =>
      if v.JStr? && Durations.Parse(w.otherDurations, TrimSpace(v.s)).Some?
      then VDur(Durations.Parse(w.otherDurations, TrimSpace(v.s)).value)
      else cur
  }

  function SplitCSV(s: string, part: string): seq<string> {
    if s == "" then (if TrimSpace(part) == "" then [] else [TrimSpace(part)])
    else if s[0] == ',' then (if TrimSpace(part) == "" then [] else [TrimSpace(part)]) + SplitCSV(s[1..], "")
    else SplitCSV(s[1..], part + [s[0]])
  }

  /** envBool, envStr, envInt and the domains list: what cannot be read leaves cur. */
  function ReadEnv(kind: Kind, raw: string, cur: Setting): Setting {
    match kind
    case KBool =>
      var word := Lower(TrimSpace(raw));
      if word in {"true", "1", "yes", "on"} then VBool(true)
      else if word in {"false", "0", "no", "off"} then VBool(false)
      else cur
    case KStr(_) => VStr(raw)
    case KInt => if ParseInt64(TrimSpace(raw)).Some? then VInt(ParseInt64(TrimSpace(raw)).value) else cur
    case KList => if raw == "" then cur else VList(SplitCSV(raw, ""))
    case KDur => cur
  }

  predicate IsTampered(w: World, k: string) {
    k in w.schema && w.schema[k].env.Some? && w.schema[k].env.value in w.env
  }

  function Stored(w: World, blob: map<string, Json>, k: string): Setting
    requires k in w.schema
  {
    if k in blob then Read(w, w.schema[k].kind, blob[k], w.schema[k].initial) else w.schema[k].initial
  }

  function EffectiveAt(w: World, blob: map<string, Json>, k: string): Setting
    requires k in w.schema
  {
    var stored := Stored(w, blob, k);
    if IsTampered(w, k) then ReadEnv(w.schema[k].kind, w.env[w.schema[k].env.value], stored) else stored
  }

  /** BuildEffective: defaults, then the saved values, then the environment. */
  function Effective(w: World, blob: map<string, Json>): (c: Config)
    ensures c.Keys == w.schema.Keys
  {
    map k | k in w.schema :: EffectiveAt(w, blob, k)
  }

  // ---- showing values ----

  function JStrs(items: seq<string>): seq<Json> {
    if items == [] then [] else [JStr(items[0])] + JStrs(items[1..])
  }

  function Show(kind: Kind, v: Setting): Json {
    match v
    case VBool(b) => JBool(b)
    case VStr(s) => if s == "" && kind.KStr? && kind.nullable then JNull else JStr(s)
    case VInt(n) => JNum(n as real)
    case VList(items) => JArr(JStrs(items))
    case VDur(ns) => JStr(Durations.Text(ns))
  }

  function Projected(w: World, c: Config): map<string, Json>
    requires c.Keys == w.schema.Keys
  {
    map k | k in w.schema.Keys + w.fixed.Keys :: if k in w.schema then Show(w.schema[k].kind, c[k]) else w.fixed[k]
  }

  /** srvFlatSettings: the projected configuration, overlaid with the saved values, except where the
      environment decides. */
  function Flat(w: World, c: Config, blob: map<string, Json>): map<string, Json>
    requires c.Keys == w.schema.Keys
  {
    var base := Projected(w, c);
    map k | k in base.Keys + blob.Keys :: if k in blob && !IsTampered(w, k) then blob[k] else base[k]
  }

  lemma {:induction false} StringsOfJStrs(items: seq<string>)
    ensures Strings(JStrs(items)) == items
  {
    if items != [] {
      StringsOfJStrs(items[1..]);
      assert JStrs(items)[1..] == JStrs(items[1..]);
    }
  }

  /** A shown value reads back as itself; a duration exactly when it is whole seconds. */
  lemma ShownReadsBack(w: World, kind: Kind, v: Setting, cur: Setting)
    requires Fits(kind, v)
    ensures Read(w, kind, Show(kind, v), cur) == v || (kind.KDur? && v.ns % Durations.SECOND != 0)
  {
    match kind
    case KList => StringsOfJStrs(v.items);
    case KDur =>
      TextIsTrimmed(v.ns);
      Durations.PrintParse(w.otherDurations, v.ns);
    case _ =>
  }

  lemma TextIsTrimmed(d: int)
    ensures TrimSpace(Durations.Text(d)) == Durations.Text(d)
  {
    TrimSpaceKeeps(Durations.Text(d));
  }

  lemma NotWholeReadsDifferent(w: World, d: int, cur: Setting)
    requires MIN_INT64 <= d <= MAX_INT64 && d % Durations.SECOND != 0
    ensures Read(w, KDur, Show(KDur, VDur(d)), cur) != VDur(d)
  {
    TextIsTrimmed(d);
    Durations.PrintParse(w.otherDurations, d);
    Durations.TextReads(d);
  }

  lemma EffectiveFits(w: World, blob: map<string, Json>, k: string)
    requires Valid(w) && k in w.schema
    ensures Fits(w.schema[k].kind, Stored(w, blob, k)) && Fits(w.schema[k].kind, EffectiveAt(w, blob, k))
  {
  }

  // ---- the server ----

  /** base with the keys of data written over it, except those still pending. */
  ghost predicate PartlyOverlaid(base: map<string, Json>, data: map<string, Json>, pending: set<string>,
                                 flat: map<string, Json>) {
    && flat.Keys == base.Keys + (data.Keys - pending)
    && forall k | k in flat :: flat[k] == if k in data && k !in pending then data[k] else base[k]
  }

  class Server {
    const w: World
    var data: map<string, Json>
    var cfg: Config

    ghost predicate Current()
      reads this
    {
      cfg == Effective(w, data)
    }

    constructor (w: World, data: map<string, Json>)
      ensures this.w == w && this.data == data && Current()
    {
      this.w, this.data, this.cfg := w, data, Effective(w, data);
    }

    method FlatSettings() returns (flat: map<string, Json>)
      requires cfg.Keys == w.schema.Keys
      ensures flat == Flat(w, cfg, data)
    {
      flat := Projected(w, cfg);
      ghost var base := flat;
      var snapshot := map k | k in flat && IsTampered(w, k) :: flat[k];
      var pending := data.Keys;
      while pending != {}
        invariant pending <= data.Keys && PartlyOverlaid(base, data, pending, flat)
        decreases |pending|
      {
        var k :| k in pending;
        flat, pending := flat[k := data[k]], pending - {k};
      }
      OverlayDone(w, cfg, data, flat);
      flat := flat + snapshot;
    }

    method ReloadSettings()
      modifies this`cfg
      ensures Current()
    {
      cfg := Effective(w, data);
    }

    method PatchSettings(patch: map<string, Json>) returns (flat: map<string, Json>)
      modifies this
      ensures data == Merge(old(data), patch) && Current() && flat == Flat(w, cfg, data)
    {
      data := SrvMergeMaps(data, patch);
      ReloadSettings();
      flat := FlatSettings();
    }
  }

  lemma OverlayDone(w: World, c: Config, data: map<string, Json>, flat: map<string, Json>)
    requires c.Keys == w.schema.Keys && PartlyOverlaid(Projected(w, c), data, {}, flat)
    ensures var base := Projected(w, c);
            flat + (map k | k in base && IsTampered(w, k) :: base[k]) == Flat(w, c, data)
  {
  }

  // ---- the laws ----

  lemma SavedAt(w: World, blob: map<string, Json>, k: string)
    requires k in Flat(w, Effective(w, blob), blob)
    ensures var flat := Flat(w, Effective(w, blob), blob);
            k in Merge(blob, flat) && (k in blob && !IsTampered(w, k) ==> Merge(blob, flat)[k] == blob[k])
            && (k !in blob || (IsTampered(w, k) && !flat[k].JObj?) ==> Merge(blob, flat)[k] == flat[k])
  {
    if k in blob {
      MergeItself(blob[k]);
    }
  }

  ghost predicate WholeDefault(w: World, k: string)
    requires k in w.schema
  {
    w.schema[k].initial.VDur? ==> w.schema[k].initial.ns % Durations.SECOND == 0
  }

  /** Saving what was shown leaves setting k as it was. */
  lemma SavingShownKeeps(w: World, blob: map<string, Json>, k: string)
    requires Valid(w) && k in w.schema && WholeDefault(w, k)
    ensures EffectiveAt(w, SavedBack(w, blob), k) == EffectiveAt(w, blob, k)
  {
    var flat := Flat(w, Effective(w, blob), blob);
    var field := w.schema[k];
    assert k in flat;
    SavedAt(w, blob, k);
    EffectiveFits(w, blob, k);
    if k !in blob || IsTampered(w, k) {
      assert flat[k] == Show(field.kind, EffectiveAt(w, blob, k));
      ShownReadsBack(w, field.kind, EffectiveAt(w, blob, k), field.initial);
    }
  }

  /** What the server has saved after a PATCH with what GET returned. */
  function SavedBack(w: World, blob: map<string, Json>): map<string, Json> {
    Merge(blob, Flat(w, Effective(w, blob), blob))
  }

  /** PATCHing back what GET returned changes no effective setting, and GET then returns the same
      again. */
  ghost predicate SavesUnchanged(w: World, blob: map<string, Json>) {
    && Effective(w, SavedBack(w, blob)) == Effective(w, blob)
    && Flat(w, Effective(w, blob), SavedBack(w, blob)) == Flat(w, Effective(w, blob), blob)
  }

  lemma PatchOfGet(w: World, blob: map<string, Json>)
    requires Valid(w) && forall k | k in w.schema :: WholeDefault(w, k)
    ensures SavesUnchanged(w, blob)
  {
    forall k | k in w.schema ensures EffectiveAt(w, SavedBack(w, blob), k) == EffectiveAt(w, blob, k) {
      SavingShownKeeps(w, blob, k);
    }
    ShowsTheSame(w, blob);
  }

  lemma ShowsTheSame(w: World, blob: map<string, Json>)
    ensures Flat(w, Effective(w, blob), SavedBack(w, blob)) == Flat(w, Effective(w, blob), blob)
  {
    var c := Effective(w, blob);
    var flat, saved := Flat(w, c, blob), SavedBack(w, blob);
    forall k | k in flat ensures k in Flat(w, c, saved) && Flat(w, c, saved)[k] == flat[k] {
      ShownAgain(w, blob, k);
    }
    assert Flat(w, c, saved).Keys <= flat.Keys;
  }

  lemma ShownAgain(w: World, blob: map<string, Json>, k: string)
    requires k in Flat(w, Effective(w, blob), blob)
    ensures var c := Effective(w, blob);
            k in Flat(w, c, SavedBack(w, blob)) && Flat(w, c, SavedBack(w, blob))[k] == Flat(w, c, blob)[k]
  {
    if !IsTampered(w, k) {
      SavedUntampered(w, blob, k);
    }
  }

  lemma SavedUntampered(w: World, blob: map<string, Json>, k: string)
    requires var flat := Flat(w, Effective(w, blob), blob); k in flat && !IsTampered(w, k)
    ensures var flat := Flat(w, Effective(w, blob), blob); Merge(blob, flat)[k] == flat[k]
  {
    SavedAt(w, blob, k);
  }

  /** It holds for every saved object exactly when every built-in duration is whole seconds. */
  lemma PatchOfGetIff(w: World)
    requires Valid(w)
    ensures (forall blob :: SavesUnchanged(w, blob)) <==> forall k | k in w.schema :: WholeDefault(w, k)
  {
    if k :| k in w.schema && !WholeDefault(w, k) {
      FractionIsLost(w, k);
    } else {
      forall blob ensures SavesUnchanged(w, blob) {
        PatchOfGet(w, blob);
      }
    }
  }

  lemma FractionIsLost(w: World, k: string)
    requires Valid(w) && k in w.schema && !WholeDefault(w, k)
    ensures !SavesUnchanged(w, map[])
  {
    var blob: map<string, Json> := map[];
    var flat := Flat(w, Effective(w, blob), blob);
    var initial := w.schema[k].initial;
    assert Effective(w, blob)[k] == initial;
    assert k in flat && flat[k] == Show(KDur, initial);
    NotWholeReadsDifferent(w, initial.ns, initial);
    assert Effective(w, SavedBack(w, blob))[k] == Read(w, KDur, flat[k], initial);
  }

  /** A patch changes no setting that it does not mention, and none that the environment decides. */
  lemma PatchIsLocal(w: World, blob: map<string, Json>, patch: map<string, Json>, k: string)
    requires k in w.schema
    requires k !in patch || (IsTampered(w, k) && EnvDecides(w, k))
    ensures Effective(w, Merge(blob, patch))[k] == Effective(w, blob)[k]
  {
  }

  /** The environment variable of k has a readable value. */
  ghost predicate EnvDecides(w: World, k: string)
    requires IsTampered(w, k)
  {
    forall a, b :: ReadEnv(w.schema[k].kind, w.env[w.schema[k].env.value], a)
                == ReadEnv(w.schema[k].kind, w.env[w.schema[k].env.value], b)
  }

  /** For every key of a patch: where the environment decides, GET shows the effective value, and
      otherwise a value that holds everything the patch sets. */
  lemma GetAfterPatch(w: World, blob: map<string, Json>, patch: map<string, Json>, k: string)
    requires k in patch
    ensures var saved := Merge(blob, patch);
            var shown := Flat(w, Effective(w, saved), saved);
            && k in shown
            && if IsTampered(w, k) then shown[k] == Show(w.schema[k].kind, EffectiveAt(w, saved, k))
               else Carries(shown[k], patch[k])
  {
    if k in blob {
      MergeCarries(blob[k], patch[k]);
    } else {
      CarriesItself(patch[k]);
    }
  }

  // ---- what the environment and the saved values mean ----

  function JoinedByCommas(pieces: seq<string>): string {
    if pieces == [] then "" else if |pieces| == 1 then pieces[0] else pieces[0] + "," + JoinedByCommas(pieces[1..])
  }

  /** raw consists of the pieces, with commas between them and none in them. */
  ghost predicate IsSplit(raw: string, pieces: seq<string>) {
    pieces != [] && raw == JoinedByCommas(pieces) && forall p | p in pieces :: ',' !in p
  }

  function WithoutBlanks(pieces: seq<string>): seq<string> {
    if pieces == [] then []
    else (if TrimSpace(pieces[0]) == "" then [] else [TrimSpace(pieces[0])]) + WithoutBlanks(pieces[1..])
  }

  lemma {:induction false} SplitOfJoined(pieces: seq<string>, part: string)
    requires pieces != [] && forall p | p in pieces :: ',' !in p
    ensures SplitCSV(JoinedByCommas(pieces), part) == WithoutBlanks([part + pieces[0]] + pieces[1..])
    decreases |pieces|, |pieces[0]|
  {
    var text := JoinedByCommas(pieces);
    if pieces[0] == "" {
      assert part + pieces[0] == part;
      if |pieces| > 1 {
        assert text == "," + JoinedByCommas(pieces[1..]) && text[1..] == JoinedByCommas(pieces[1..]);
        SplitOfJoined(pieces[1..], "");
        assert [pieces[1]] + pieces[1..][1..] == pieces[1..] && "" + pieces[1] == pieces[1];
        assert ([part] + pieces[1..])[1..] == pieces[1..];
      }
    } else {
      var shorter := [pieces[0][1..]] + pieces[1..];
      assert shorter[1..] == pieces[1..];
      assert text[1..] == JoinedByCommas(shorter) && text[0] == pieces[0][0] by {
        if |pieces| > 1 {
          assert text == pieces[0] + ("," + JoinedByCommas(pieces[1..]));
          assert JoinedByCommas(shorter) == pieces[0][1..] + ("," + JoinedByCommas(pieces[1..]));
        }
      }
      assert forall p | p in shorter :: ',' !in p by {
        assert pieces[0] in pieces;
      }
      assert text[0] != ',' && text != "" by {
        assert pieces[0] in pieces;
      }
      SplitOfJoined(shorter, part + [pieces[0][0]]);
      assert part + [pieces[0][0]] + shorter[0] == part + pieces[0];
    }
  }

  lemma BoolWord(raw: string, cur: Setting)
    requires raw in {"true", "1", "yes", "on", "false", "0", "no", "off"}
    ensures ReadEnv(KBool, raw, cur) == VBool(raw in {"true", "1", "yes", "on"})
  {
    TrimSpaceKeeps(raw);
    LowerKeeps(raw);
  }

  /** What a variable makes of its setting: a switch is on for true, 1, yes and on, and off for false,
      0, no and off, in any case and between blanks; a text is taken as it is; a number is read; a
      list is split at its commas, without the blank pieces. */
  lemma EnvironmentIs(w: World, blob: map<string, Json>, k: string)
    requires IsTampered(w, k)
    ensures var raw, v := w.env[w.schema[k].env.value], Effective(w, blob)[k];
            match w.schema[k].kind
            case KBool =>
              && (raw in {"true", "1", "yes", "on"} ==> v == VBool(true))
              && (raw in {"false", "0", "no", "off"} ==> v == VBool(false))
              && (Lower(TrimSpace(raw)) in {"true", "1", "yes", "on"} ==> v == VBool(true))
              && (Lower(TrimSpace(raw)) in {"false", "0", "no", "off"} ==> v == VBool(false))
            case KStr(_) => v == VStr(raw)
            case KInt => forall n | MIN_INT64 <= n <= MAX_INT64 && raw == Itoa(n) :: v == VInt(n)
            case KList =>
              forall pieces | raw != "" && IsSplit(raw, pieces) :: v == VList(WithoutBlanks(pieces))
            case KDur => true
  {
    var raw, cur := w.env[w.schema[k].env.value], Stored(w, blob, k);
    match w.schema[k].kind
    case KBool =>
      if raw in {"true", "1", "yes", "on", "false", "0", "no", "off"} {
        BoolWord(raw, cur);
      }
    case KInt =>
      forall n | MIN_INT64 <= n <= MAX_INT64 && raw == Itoa(n) ensures ReadEnv(KInt, raw, cur) == VInt(n) {
        NumberReads(n);
      }
    case KList =>
      forall pieces | raw != "" && IsSplit(raw, pieces)
        ensures ReadEnv(KList, raw, cur) == VList(WithoutBlanks(pieces))
      {
        SplitOfJoined(pieces, "");
        assert "" + pieces[0] == pieces[0] && [pieces[0]] + pieces[1..] == pieces;
      }
    case _ =>
  }

  lemma NumberReads(n: int)
    requires MIN_INT64 <= n <= MAX_INT64
    ensures ParseInt64(TrimSpace(Itoa(n))) == Some(n)
  {
    Durations.DigitsOfItoa(n);
    var s := Itoa(n);
    assert IsDigit(s[|s| - 1]) by {
      assert n < 0 ==> s[|s| - 1] == s[1..][|s| - 2];
    }
    TrimSpaceKeeps(s);
  }

  lemma TruncatedIs(x: real, n: int)
    requires x >= 0.0 ==> n as real <= x < n as real + 1.0
    requires x < 0.0 ==> n as real - 1.0 < x <= n as real
    ensures Truncated(x) == n
  {
  }

  /** A saved number loses its fraction towards zero. */
  lemma SavedNumberIs(w: World, blob: map<string, Json>, k: string, x: real, n: int)
    requires k in w.schema && w.schema[k].kind == KInt && !IsTampered(w, k) && k in blob && blob[k] == JNum(x)
    requires x >= 0.0 ==> n as real <= x < n as real + 1.0
    requires x < 0.0 ==> n as real - 1.0 < x <= n as real
    ensures Effective(w, blob)[k] == VInt(n)
  {
    TruncatedIs(x, n);
  }

  /** A saved text is read as the number it shows. */
  lemma SavedDigitsAre(w: World, blob: map<string, Json>, k: string, n: int)
    requires k in w.schema && w.schema[k].kind == KInt && !IsTampered(w, k) && k in blob && blob[k] == JStr(Itoa(n))
    requires MIN_INT64 <= n <= MAX_INT64
    ensures Effective(w, blob)[k] == VInt(n)
  {
    NumberReads(n);
  }

  /** What GET shows under every key: the saved value, if there is one and the environment does not
      decide; else the effective setting, where an empty text is null for a key that may be null; else
      the fixed value. */
  lemma GetShows(w: World, blob: map<string, Json>, k: string)
    ensures var shown := Flat(w, Effective(w, blob), blob);
            && (k in shown <==> k in w.schema || k in w.fixed || k in blob)
            && (k in blob && !IsTampered(w, k) ==> shown[k] == blob[k])
            && (k in w.schema && (k !in blob || IsTampered(w, k)) ==>
                  match Effective(w, blob)[k]
                  case VBool(b) => shown[k] == JBool(b)
                  case VStr(s) =>
                    shown[k] == (if s == "" && w.schema[k].kind == KStr(true) then JNull else JStr(s))
                  case VInt(n) => shown[k] == JNum(n as real)
                  case VList(items) => shown[k].JArr? && Strings(shown[k].items) == items && |shown[k].items| == |items|
                  case VDur(ns) => shown[k] == JStr(Durations.Text(ns)))
            && (k in w.fixed && k !in w.schema && k !in blob ==> shown[k] == w.fixed[k])
  {
    if k in w.schema && Effective(w, blob)[k].VList? {
      StringsOfJStrs(Effective(w, blob)[k].items);
      JStrsCount(Effective(w, blob)[k].items);
    }
  }

  lemma {:induction false} JStrsCount(items: seq<string>)
    ensures |JStrs(items)| == |items|
  {
    if items != [] {
      JStrsCount(items[1..]);
    }
  }
}
