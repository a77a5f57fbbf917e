/**
 * The configuration store: the record `stMediastreamer` of main.c, its
 * defaults, the update a set request makes to it, the report a get request
 * reads from it, and the reset a start request makes first.
 */
module Settings {
  import opened Options
  import opened Text
  import opened Query

  /** The capture parameters (`MEDIASTREAMER`, main.c:65-77). */
  datatype StreamConfig = StreamConfig(
    videoType: string,   // avideotype: the caps media type
    format: string,      // aformat: the raw pixel format, empty when unset
    width: int,
    height: int,
    framerate: int,
    doTimestamp: int)    // non-zero selects framed delivery

  /** `load_default_mediastreamer_value`: all zero, then 640x480 at 30 fps as "video/x-raw". */
  function Defaults(): StreamConfig {
    StreamConfig("video/x-raw", "", 640, 480, 30, 0)
  }

  /** The fields a request can name. */
  datatype Field = Width | Height | Framerate | VideoType | DoTimestamp | Format

  /** The key naming each field in a request. */
  function Name(f: Field): string {
    match f
    case Width => "width"
    case Height => "height"
    case Framerate => "framerate"
    case VideoType => "videotype"
    case DoTimestamp => "do_timestamp"
    case Format => "format"
  }

  /** The fields read with `atoi` and reported with "%d". */
  predicate IsInt(f: Field) {
    f != VideoType && f != Format
  }

  /**
   * The field a key names: the chain of `strcmp` tests of the set and get
   * handlers. Exactly the six field names are recognised.
   */
  function FieldNamed(k: string): (r: Option<Field>)
    ensures r.Some? ==> Name(r.value) == k
    ensures forall f :: Name(f) == k ==> r == Some(f)
  {
    if k == "width" then Some(Width)
    else if k == "height" then Some(Height)
    else if k == "framerate" then Some(Framerate)
    else if k == "videotype" then Some(VideoType)
    else if k == "do_timestamp" then Some(DoTimestamp)
    else if k == "format" then Some(Format)
    else None
  }

  /** What a field holds: a number or a string. */
  datatype FieldValue = IntValue(n: int) | StrValue(s: string)

  /** The content of field `f` of `c`. */
  function Value(c: StreamConfig, f: Field): (x: FieldValue)
    ensures x.IntValue? <==> IsInt(f)
  {
    match f
    case Width => IntValue(c.width)
    case Height => IntValue(c.height)
    case Framerate => IntValue(c.framerate)
    case VideoType => StrValue(c.videoType)
    case DoTimestamp => IntValue(c.doTimestamp)
    case Format => StrValue(c.format)
  }

  /** A field's content as a get request reports it: "%d" of a number, a string as it is. */
  function Show(x: FieldValue): string {
    match x
    case IntValue(n) => Decimal(n)
    case StrValue(s) => s
  }

  /** The text a get request reports for a field. */
  function FieldText(c: StreamConfig, f: Field): string {
    Show(Value(c, f))
  }

  /** What setting a field from the text `v` stores: integers go through `atoi`. */
  function StoredValue(f: Field, v: string): FieldValue {
    if IsInt(f) then IntValue(Atoi(v)) else StrValue(v)
  }

  /** What setting a field to the text `v` makes a later get of it report. */
  function Stored(f: Field, v: string): string {
    Show(StoredValue(f, v))
  }

  /** The reported texts determine the record: no two records report alike. */
  lemma SameFieldsSameConfig(a: StreamConfig, b: StreamConfig)
    requires forall f :: FieldText(a, f) == FieldText(b, f)
    ensures a == b
  {
    assert FieldText(a, Width) == FieldText(b, Width);
    assert FieldText(a, Height) == FieldText(b, Height);
    assert FieldText(a, Framerate) == FieldText(b, Framerate);
    assert FieldText(a, DoTimestamp) == FieldText(b, DoTimestamp);
    assert FieldText(a, VideoType) == FieldText(b, VideoType);
    assert FieldText(a, Format) == FieldText(b, Format);
    DecimalInjective(a.width, b.width);
    DecimalInjective(a.height, b.height);
    DecimalInjective(a.framerate, b.framerate);
    DecimalInjective(a.doTimestamp, b.doTimestamp);
  }

  /** The record with field `f` set from the text `v`. */
  function Assign(c: StreamConfig, f: Field, v: string): (r: StreamConfig)
    ensures Value(r, f) == StoredValue(f, v)
    ensures forall g | g != f :: Value(r, g) == Value(c, g)
  {
    var n := Atoi(v);
    match f
    case Width => c.(width := n)
    case Height => c.(height := n)
    case Framerate => c.(framerate := n)
    case VideoType => c.(videoType := v)
    case DoTimestamp => c.(doTimestamp := n)
    case Format => c.(format := v)
  }

  /**
   * One pass of parse_and_set's loop body: a recognised key overwrites its
   * field (integers through `atoi`, strings verbatim); any other key changes
   * nothing.
   */
  function ApplyPair(c: StreamConfig, p: Pair): (r: StreamConfig)
    ensures FieldNamed(p.key).None? ==> r == c
    ensures FieldNamed(p.key).Some? ==>
      FieldText(r, FieldNamed(p.key).value) == Stored(FieldNamed(p.key).value, p.value)
    ensures forall g | FieldNamed(p.key) != Some(g) :: FieldText(r, g) == FieldText(c, g)
  {
    match FieldNamed(p.key)
    case None => c
    case Some(f) => Assign(c, f, p.value)
  }

  /** The pairs applied one after another, in request order. */
  function ApplyPairs(c: StreamConfig, ps: seq<Pair>): StreamConfig {
    if ps == [] then c else ApplyPair(ApplyPairs(c, ps[..|ps| - 1]), ps[|ps| - 1])
  }

  /** The value of the last pair in `ps` whose key is `k`. */
  function LastValue(ps: seq<Pair>, k: string): (r: Option<string>)
    ensures r.None? <==> forall i | 0 <= i < |ps| :: ps[i].key != k
  {
    if ps == [] then None
    else if ps[|ps| - 1].key == k then Some(ps[|ps| - 1].value)
    else LastValue(ps[..|ps| - 1], k)
  }

  lemma ApplyPairsSnoc(c: StreamConfig, ps: seq<Pair>, p: Pair)
    ensures ApplyPairs(c, ps + [p]) == ApplyPair(ApplyPairs(c, ps), p)
  {
    assert (ps + [p])[..|ps|] == ps;
  }

  /** One more token read by parse_and_set: its pair, if it has one, is applied last. */
  lemma ApplyPairsStep(c: StreamConfig, ps: seq<Pair>, pair: Option<Pair>)
    ensures ApplyPairs(c, ps + ToSeq(pair)) ==
      if pair.Some? then ApplyPair(ApplyPairs(c, ps), pair.value) else ApplyPairs(c, ps)
  {
    if pair.Some? {
      ApplyPairsSnoc(c, ps, pair.value);
    } else {
      assert ps + [] == ps;
    }
  }

  /**
   * After a run of updates each field holds what the LAST pair naming it
   * set, and keeps its old value when no pair names it.
   */
  lemma {:induction false} ApplyPairsLastWins(c: StreamConfig, ps: seq<Pair>, f: Field)
    ensures FieldText(ApplyPairs(c, ps), f) ==
      match LastValue(ps, Name(f))
      case Some(v) => Stored(f, v)
      case None => FieldText(c, f)
  {
    if ps != [] {
      ApplyPairsLastWins(c, ps[..|ps| - 1], f);
    }
  }

  /** Pairs whose keys name no field leave the whole record as it was. */
  lemma ApplyPairsIgnoresUnknownKeys(c: StreamConfig, ps: seq<Pair>)
    requires forall i | 0 <= i < |ps| :: FieldNamed(ps[i].key).None?
    ensures ApplyPairs(c, ps) == c
  {
    forall f ensures FieldText(ApplyPairs(c, ps), f) == FieldText(c, f) {
      ApplyPairsLastWins(c, ps, f);
    }
    SameFieldsSameConfig(ApplyPairs(c, ps), c);
  }

  /**
   * parse_and_start (main.c:209-215): `aformat` is emptied, then the start
   * request's pairs are applied as a set request would apply them.
   */
  function StartConfig(c: StreamConfig, ps: seq<Pair>): StreamConfig {
    ApplyPairs(c.(format := ""), ps)
  }

  /**
   * A stream starts with a pixel format only when its own start request
   * carried a non-empty one: a format stored earlier does not survive, and
   * the other fields are those the same pairs give when applied as a set
   * request.
   */
  lemma StartClearsFormat(c: StreamConfig, ps: seq<Pair>)
    ensures StartConfig(c, ps).format != "" <==>
      LastValue(ps, "format").Some? && LastValue(ps, "format").value != ""
    ensures StartConfig(c, ps) == ApplyPairs(c, ps).(format := StartConfig(c, ps).format)
  {
    var s, a := StartConfig(c, ps), ApplyPairs(c, ps);
    ApplyPairsLastWins(c.(format := ""), ps, Format);
    forall f ensures FieldText(s, f) == FieldText(a.(format := s.format), f) {
      ApplyPairsLastWins(c.(format := ""), ps, f);
      ApplyPairsLastWins(c, ps, f);
    }
    SameFieldsSameConfig(s, a.(format := s.format));
  }

  /** A get request asks for a field by giving it the value "**". */
  predicate IsQuery(p: Pair) {
    p.value == "**" && FieldNamed(p.key).Some?
  }

  /** What one pair of a get request adds to the body (main.c:641-678 with LoadAttributesValue, main.c:606-615). */
  function Contribution(c: StreamConfig, p: Pair): string {
    if IsQuery(p) then p.key + "=" + FieldText(c, FieldNamed(p.key).value) + "&" else ""
  }

  /** The body of the reply to a get request: the contributions of its pairs, in request order. */
  function GetBody(c: StreamConfig, ps: seq<Pair>): string {
    if ps == [] then "" else GetBody(c, ps[..|ps| - 1]) + Contribution(c, ps[|ps| - 1])
  }

  /** The body of a request is the bodies of its parts, one after the other. */
  lemma {:induction false} GetBodyAppend(c: StreamConfig, a: seq<Pair>, b: seq<Pair>)
    ensures GetBody(c, a + b) == GetBody(c, a) + GetBody(c, b)
  {
    if b != [] {
      var b0, bl := b[..|b| - 1], b[|b| - 1];
      assert (a + b)[..|a + b| - 1] == a + b0;
      assert (a + b)[|a + b| - 1] == bl;
      GetBodyAppend(c, a, b0);
    } else {
      assert a + b == a;
    }
  }

  /** Only wildcard queries of recognised keys produce text; every other pair adds nothing. */
  lemma {:induction false} GetBodyEmpty(c: StreamConfig, ps: seq<Pair>)
    ensures GetBody(c, ps) == "" <==> forall i | 0 <= i < |ps| :: !IsQuery(ps[i])
  {
    if ps != [] {
      GetBodyEmpty(c, ps[..|ps| - 1]);
      assert forall i | 0 <= i < |ps| - 1 :: ps[..|ps| - 1][i] == ps[i];
    }
  }

  /**
   * A wildcard get of a field reports the value the last update naming it
   * stored (through `atoi` and "%d" for integers), or the earlier value when
   * the updates did not name it.
   */
  lemma SetThenGet(c: StreamConfig, ps: seq<Pair>, f: Field)
    ensures GetBody(ApplyPairs(c, ps), [Pair(Name(f), "**")]) ==
      Name(f) + "=" + (match LastValue(ps, Name(f))
                       case Some(v) => Stored(f, v)
                       case None => FieldText(c, f)) + "&"
  {
    var q := Pair(Name(f), "**");
    assert FieldNamed(q.key) == Some(f);
    GetBodySingle(ApplyPairs(c, ps), q);
    ApplyPairsLastWins(c, ps, f);
  }

  lemma GetBodySingle(c: StreamConfig, p: Pair)
    ensures GetBody(c, [p]) == Contribution(c, p)
  {
    assert [p][..0] == [];
  }

  /** A decimal number stored in an integer field is reported back exactly as it was written. */
  lemma SetThenGetDecimal(c: StreamConfig, f: Field, n: int)
    requires IsInt(f)
    ensures GetBody(ApplyPairs(c, [Pair(Name(f), Decimal(n))]), [Pair(Name(f), "**")]) ==
      Name(f) + "=" + Decimal(n) + "&"
  {
    SetThenGet(c, [Pair(Name(f), Decimal(n))], f);
    AtoiOfDecimal(n);
  }

  // The value buffer of parse_and_get

  /** The size of `aValue`, the buffer parse_and_get formats each reported value into (main.c:625). */
  const ValueBufferSize: nat := 10

  /** Whether `sprintf` of the text `s` into `aValue` stays inside it, terminating NUL included. */
  predicate FitsValueBuffer(s: string) {
    |s| + 1 <= ValueBufferSize
  }

  /** The "%d" text of an integer fits `aValue` exactly when the integer lies in [-99999999, 999999999]. */
  lemma ValueBufferHoldsDecimal(n: int)
    ensures FitsValueBuffer(Decimal(n)) <==> -99_999_999 <= n <= 999_999_999
  {
    if n < 0 {
      NaturalDecimalLength(-n, 8);
      assert Pow10(8) == 100_000_000;
    } else {
      NaturalDecimalLength(n, 9);
      assert Pow10(9) == 1_000_000_000;
    }
  }

  /**
   * The default media type, "video/x-raw", does not fit `aValue`: a get of
   * videotype right after start-up writes past the buffer.
   */
  lemma DefaultVideoTypeOverflowsValueBuffer()
    ensures !FitsValueBuffer(FieldText(Defaults(), VideoType))
  {
  }

  // Requests as a client sends them

  lemma DefaultNumbers()
    ensures Decimal(640) == "640" && Decimal(480) == "480" && Decimal(30) == "30" && Decimal(0) == "0"
  {
    assert NaturalDecimal(64) == "64";
    assert NaturalDecimal(48) == "48";
    assert NaturalDecimal(3) == "3";
  }

  /** The texts a get request reports for the defaults of main.c:113-123. */
  lemma DefaultTexts(f: Field)
    ensures FieldText(Defaults(), f) ==
      match f
      case Width => "640"
      case Height => "480"
      case Framerate => "30"
      case VideoType => "video/x-raw"
      case DoTimestamp => "0"
      case Format => ""
  {
    DefaultNumbers();
  }

  /** Right after start-up a get of a field reports its default. */
  lemma DefaultsReport(f: Field)
    ensures GetBody(Defaults(), [Pair(Name(f), "**")]) == Name(f) + "=" +
      (match f
       case Width => "640"
       case Height => "480"
       case Framerate => "30"
       case VideoType => "video/x-raw"
       case DoTimestamp => "0"
       case Format => "") + "&"
  {
    SetThenGet(Defaults(), [], f);
    DefaultTexts(f);
  }

  lemma NameIsKey(f: Field)
    ensures IsKeyText(Name(f)) && '&' !in Name(f)
  {
  }

  lemma NoSeparatorInDecimal(n: int)
    ensures '&' !in Decimal(n) && '=' !in Decimal(n)
  {
    var ds := NaturalDecimal(if n < 0 then -n else n);
    assert forall i | 0 <= i < |ds| :: IsDigit(ds[i]);
    if n < 0 {
      assert Decimal(n) == "-" + ds;
    }
  }

  lemma RequestOfOnePair(path: string, p: Pair)
    requires path != [] && '&' !in path && WellFormed(p)
    ensures Tokens(path + "&" + Render(p), '&') == [path, Render(p)]
    ensures RequestPairs(path + "&" + Render(p)) == [p]
  {
    var r := Render(p);
    var ts := [path, r];
    RenderWellFormed(p);
    JoinOfTwo(path, r, '&');
    TokensOfJoin(ts, '&');
    assert ts[1..] == [r];
    assert [r][..0] == [];
    SplitPairOfRender(p);
    assert PairsOf([r]) == [p];
  }

  /**
   * A client that sets an integer field with "%d" text and then asks for it
   * with a get request reads back exactly the number it sent.
   */
  lemma SetRequestThenGetRequest(c: StreamConfig, f: Field, n: int, setPath: string, getPath: string)
    requires IsInt(f)
    requires setPath != [] && '&' !in setPath && getPath != [] && '&' !in getPath
    ensures GetBody(ApplyPairs(c, RequestPairs(setPath + "&" + Name(f) + "=" + Decimal(n))),
                    RequestPairs(getPath + "&" + Name(f) + "=**"))
         == Name(f) + "=" + Decimal(n) + "&"
  {
    var p, q := Pair(Name(f), Decimal(n)), Pair(Name(f), "**");
    NoSeparatorInDecimal(n);
    NameIsKey(f);
    assert setPath + "&" + Name(f) + "=" + Decimal(n) == setPath + "&" + Render(p);
    assert getPath + "&" + Name(f) + "=**" == getPath + "&" + Render(q);
    RequestOfOnePair(setPath, p);
    RequestOfOnePair(getPath, q);
    SetThenGetDecimal(c, f, n);
  }

  // The loop as written: the trailing pass over the last value

  /** parse_and_set's update as the loop of main.c:563-598 performs it. */
  function SetAsWritten(c: StreamConfig, uri: string): StreamConfig {
    ApplyPairs(c, LoopPairsAsWritten(uri))
  }

  /** parse_and_get's body as the loop of main.c:635-679 builds it. */
  function GetAsWritten(c: StreamConfig, uri: string): string {
    GetBody(c, LoopPairsAsWritten(uri))
  }

  lemma LoopPairsOfOne(path: string, p: Pair)
    requires path != [] && '&' !in path && WellFormed(p)
    ensures LoopPairsAsWritten(path + "&" + Render(p)) == [p] + ToSeq(SplitPair(p.value))
  {
    JoinOfTwo(path, Render(p), '&');
    assert RenderAll([p]) == [Render(p)];
    LoopPairsAsWrittenOfJoin(path, [p]);
  }

  /** An integer field set from an empty value holds 0 (`atoi("")`). */
  lemma EmptyValueStoresZero(c: StreamConfig, f: Field)
    requires IsInt(f)
    ensures FieldText(ApplyPair(c, Pair(Name(f), [])), f) == "0"
  {
    assert FieldNamed(Name(f)) == Some(f);
    assert Atoi([]) == 0;
    assert Decimal(0) == "0";
  }

  lemma ApplyTwoPairs(c: StreamConfig, p: Pair, q: Pair)
    ensures ApplyPairs(c, [p]) == ApplyPair(c, p)
    ensures ApplyPairs(c, [p, q]) == ApplyPair(ApplyPair(c, p), q)
  {
    assert [p, q][..1] == [p] && [p][..0] == [];
  }

  /**
   * The trailing pass reads the last value as a request of its own. A set
   * request whose last value is the name of an integer field (for instance
   * "/setstream&videotype=width") also sets that field to 0, `atoi` of the
   * empty value; reading each real pair once, as RequestPairs does, leaves
   * the field alone.
   */
  lemma TrailingPassZeroesField(c: StreamConfig, path: string, key: string, f: Field)
    requires path != [] && '&' !in path && IsKeyText(key) && '&' !in key && key != Name(f)
    requires IsInt(f)
    ensures var uri := path + "&" + key + "=" + Name(f);
      FieldText(ApplyPairs(c, RequestPairs(uri)), f) == FieldText(c, f) &&
      FieldText(SetAsWritten(c, uri), f) == "0"
  {
    NameIsKey(f);
    OnePairRequest(path, key, Name(f));
    SplitPairWithoutSeparator(Name(f));
    TrailingPairs(path, key, Name(f), Pair(Name(f), []));
    var p := Pair(key, Name(f));
    ApplyTwoPairs(c, p, Pair(Name(f), []));
    EmptyValueStoresZero(ApplyPair(c, p), f);
  }

  /** A request with one pair: read once by the model, and its value once more by the loop. */
  lemma OnePairRequest(path: string, key: string, v: string)
    requires path != [] && '&' !in path && IsKeyText(key) && '&' !in key && '&' !in v
    ensures RequestPairs(path + "&" + key + "=" + v) == [Pair(key, v)]
    ensures LoopPairsAsWritten(path + "&" + key + "=" + v) == [Pair(key, v)] + ToSeq(SplitPair(v))
  {
    var p := Pair(key, v);
    assert path + "&" + key + "=" + v == path + "&" + Render(p);
    RequestOfOnePair(path, p);
    LoopPairsOfOne(path, p);
  }

  /** When the one value of a request splits as a pair `q`, the loop reads `q` after the real pair. */
  lemma TrailingPairs(path: string, key: string, v: string, q: Pair)
    requires path != [] && '&' !in path && IsKeyText(key) && '&' !in key && '&' !in v
    requires SplitPair(v) == Some(q)
    ensures LoopPairsAsWritten(path + "&" + key + "=" + v) == [Pair(key, v), q]
  {
    OnePairRequest(path, key, v);
    assert [Pair(key, v)] + [q] == [Pair(key, v), q];
  }

  /** The bodies of a get request whose one value is itself a pair `q`. */
  lemma GetWithPairValue(c: StreamConfig, path: string, key: string, q: Pair)
    requires path != [] && '&' !in path && IsKeyText(key) && '&' !in key && WellFormed(q)
    ensures var uri := path + "&" + key + "=" + Render(q);
      GetBody(c, RequestPairs(uri)) == Contribution(c, Pair(key, Render(q))) &&
      GetAsWritten(c, uri) == Contribution(c, Pair(key, Render(q))) + Contribution(c, q)
  {
    var p := Pair(key, Render(q));
    RenderWellFormed(q);
    OnePairRequest(path, key, Render(q));
    SplitPairOfRender(q);
    TrailingPairs(path, key, Render(q), q);
    GetBodySingle(c, p);
    GetBodySnoc(c, [p], q);
    assert [p] + [q] == [p, q];
  }

  /**
   * A get request whose last value reads "<field>=**" (for instance
   * "/getstream&x=width=**") reports that field, although no key of the
   * request asks for it; reading each real pair once reports nothing.
   */
  lemma TrailingPassReportsField(c: StreamConfig, path: string, key: string, f: Field)
    requires path != [] && '&' !in path && IsKeyText(key) && '&' !in key
    ensures GetBody(c, RequestPairs(path + "&" + key + "=" + Name(f) + "=**")) == ""
    ensures GetAsWritten(c, path + "&" + key + "=" + Name(f) + "=**") == Name(f) + "=" + FieldText(c, f) + "&"
  {
    var q := Pair(Name(f), "**");
    NameIsKey(f);
    assert |Render(q)| > 2;
    assert path + "&" + key + "=" + Name(f) + "=**" == path + "&" + key + "=" + Render(q);
    GetWithPairValue(c, path, key, q);
    assert FieldNamed(q.key) == Some(f);
  }

  /** One more token read by parse_and_get: its pair, if it has one, contributes last. */
  lemma GetBodyStep(c: StreamConfig, ps: seq<Pair>, pair: Option<Pair>)
    ensures GetBody(c, ps + ToSeq(pair)) ==
      GetBody(c, ps) + (if pair.Some? then Contribution(c, pair.value) else "")
  {
    if pair.Some? {
      GetBodySnoc(c, ps, pair.value);
    } else {
      assert ps + [] == ps;
    }
  }

  lemma GetBodySnoc(c: StreamConfig, ps: seq<Pair>, p: Pair)
    ensures GetBody(c, ps + [p]) == GetBody(c, ps) + Contribution(c, p)
  {
    assert (ps + [p])[..|ps|] == ps;
  }
}
