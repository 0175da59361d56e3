/** The text behind a webhook's event ID: JavaScript's JSON.stringify of
    [purpose, merchantId, id, status, success]. */
module EventId {
  import opened Text
  import opened JsonNumber
  import opened JsNumber
  import opened JsString

  /** One raw field of the body. A number is given as the float64 it is read as. */
  datatype Token =
    | Absent
    | NullToken
    | BoolToken(flag: bool)
    | StringToken(text: string)
    | NumberToken(number: Float)
    | Composite

  predicate Valid(token: Token) {
    match token
    case StringToken(text) => ValidToken(text)
    case NumberToken(number) => Canonical(number)
    case _ => true
  }

  /** What JavaScript makes of a field. */
  datatype Value =
    | Null
    | Boolean(flag: bool)
    | Text(units: seq<int>)
    | ZeroNumber
    | Number(negative: bool, digits: string, point: int)

  predicate ValidValue(v: Value) {
    match v
    case Text(units) => Units(units)
    case Number(_, digits, _) => CanonicalDigits(digits)
    case _ => true
  }

  /** An absent field and a number out of range count as null, and -0 as 0. */
  function Meaning(token: Token): (v: Value)
    requires Valid(token) && !token.Composite?
    ensures ValidValue(v)
  {
    match token
    case Absent => Null
    case NullToken => Null
    case BoolToken(flag) => Boolean(flag)
    case StringToken(text) => Text(DecodeToken(text))
    case NumberToken(Finite(negative, digits, point)) => Number(negative, digits, point)
    case NumberToken(Zero(_)) => ZeroNumber
    case NumberToken(_) => Null
  }

  /** JSON.stringify of one value. */
  function Show(v: Value): string
    requires ValidValue(v)
  {
    match v
    case Null => "null"
    case Boolean(flag) => if flag then "true" else "false"
    case Text(units) => Quote(units)
    case ZeroNumber => "0"
    case Number(negative, digits, point) => NumberText(Finite(negative, digits, point))
  }

  predicate ValidValues(vs: seq<Value>) {
    vs != [] && forall i :: 0 <= i < |vs| ==> ValidValue(vs[i])
  }

  /** JSON.stringify of a nonempty array, after its opening bracket. */
  function Elements(vs: seq<Value>): string
    requires ValidValues(vs)
  {
    Show(vs[0]) + (if |vs| == 1 then "]" else "," + Elements(vs[1..]))
  }

  function ArrayText(vs: seq<Value>): string
    requires ValidValues(vs)
  {
    "[" + Elements(vs)
  }

  // ----- The source's loop

  const FIELDS: seq<string> := ["purpose", "merchantId", "id", "status", "success"]

  function Field(fields: map<string, Token>, name: string): Token {
    if name in fields then fields[name] else Absent
  }

  predicate ValidFields(fields: map<string, Token>) {
    forall name :: name in fields ==> Valid(fields[name])
  }

  predicate IsScalar(fields: map<string, Token>, name: string) {
    !Field(fields, name).Composite?
  }

  predicate ScalarBefore(fields: map<string, Token>, names: seq<string>, n: nat)
    requires n <= |names|
  {
    forall i :: 0 <= i < n ==> IsScalar(fields, names[i])
  }

  predicate AllScalar(fields: map<string, Token>, names: seq<string>) {
    ScalarBefore(fields, names, |names|)
  }

  /** The values of the named fields, in order; null stands in for an object or array. */
  function Meanings(fields: map<string, Token>, names: seq<string>): (vs: seq<Value>)
    requires ValidFields(fields)
    ensures |vs| == |names| && forall i :: 0 <= i < |vs| ==> ValidValue(vs[i])
  {
    seq(|names|, i requires 0 <= i < |names| =>
      if IsScalar(fields, names[i]) then Meaning(Field(fields, names[i])) else Null)
  }

  datatype Result = Hashed(text: string) | Refused(field: string)

  /** What is still to be written when the first `i` elements have been. */
  function Pending(vs: seq<Value>, i: nat): string
    requires ValidValues(vs) && i <= |vs|
  {
    if i == |vs| then "]" else (if i == 0 then "" else ",") + Elements(vs[i..])
  }

  lemma PendingUnfolds(vs: seq<Value>, i: nat)
    requires ValidValues(vs) && i < |vs|
    ensures Pending(vs, i) == (if i == 0 then "" else ",") + (Show(vs[i]) + Pending(vs, i + 1))
  {
  }

  lemma PendingStep(vs: seq<Value>, i: nat, dst: string)
    requires ValidValues(vs) && i < |vs|
    ensures dst + Pending(vs, i) == (dst + (if i == 0 then "" else ",") + Show(vs[i])) + Pending(vs, i + 1)
  {
    hide Pending, Show;
    var comma := if i == 0 then "" else ",";
    PendingUnfolds(vs, i);
    Associative(dst, comma, Show(vs[i]) + Pending(vs, i + 1));
    Associative(dst + comma, Show(vs[i]), Pending(vs, i + 1));
  }

  method AppendValue(dst: string, token: Token) returns (out: string)
    requires Valid(token) && !token.Composite?
    ensures out == dst + Show(Meaning(token))
  {
    match token
    case Absent => out := dst + "null";
    case NullToken => out := dst + "null";
    case BoolToken(flag) => out := dst + if flag then "true" else "false";
    case StringToken(text) => out := AppendStringToken(dst, text);
    case NumberToken(number) => out := AppendNumber(dst, number);
  }

  method AppendElement(dst: string, token: Token, i: nat) returns (out: string)
    requires Valid(token) && !token.Composite?
    ensures out == dst + (if i == 0 then "" else ",") + Show(Meaning(token))
  {
    out := dst;
    if i > 0 {
      out := out + ",";
    }
    out := AppendValue(out, token);
  }

  ghost predicate FirstComposite(fields: map<string, Token>, names: seq<string>, field: string) {
    exists k :: 0 <= k < |names| && names[k] == field && !IsScalar(fields, field) && ScalarBefore(fields, names, k)
  }

  /** The first `i` fields have been written. */
  predicate Written(fields: map<string, Token>, names: seq<string>, i: nat, identity: string)
    requires ValidFields(fields) && names != [] && i <= |names|
  {
    var vs := Meanings(fields, names);
    identity + Pending(vs, i) == ArrayText(vs)
  }

  lemma WrittenStarts(fields: map<string, Token>, names: seq<string>)
    requires ValidFields(fields) && names != []
    ensures Written(fields, names, 0, "[")
  {
    var vs := Meanings(fields, names);
    assert vs[0..] == vs;
  }

  lemma WrittenStep(fields: map<string, Token>, names: seq<string>, i: nat, identity: string)
    requires ValidFields(fields) && i < |names| && IsScalar(fields, names[i])
    requires Written(fields, names, i, identity)
    ensures Written(fields, names, i + 1, identity + (if i == 0 then "" else ",") + Show(Meaning(Field(fields, names[i]))))
  {
    PendingStep(Meanings(fields, names), i, identity);
  }

  /** The loop of the source, for any list of field names: it stops at the first
      object or array. */
  method WriteFields(fields: map<string, Token>, names: seq<string>) returns (identity: string, n: nat)
    requires ValidFields(fields) && names != []
    ensures n <= |names| && ScalarBefore(fields, names, n)
    ensures n < |names| ==> !IsScalar(fields, names[n])
    ensures n == |names| ==> Written(fields, names, n, identity)
  {
    hide Written;
    identity, n := "[", 0;
    WrittenStarts(fields, names);
    while n < |names|
      invariant n <= |names| && ScalarBefore(fields, names, n)
      invariant Written(fields, names, n, identity)
    {
      var token := Field(fields, names[n]);
      if token.Composite? {
        return;
      }
      WrittenStep(fields, names, n, identity);
      identity := AppendElement(identity, token, n);
      n := n + 1;
    }
  }

  /** webhookEventID up to the hash, for any list of field names: an object or array
      is refused, naming the first such field. */
  method FieldsText(fields: map<string, Token>, names: seq<string>) returns (result: Result)
    requires ValidFields(fields) && names != []
    ensures result.Hashed? <==> AllScalar(fields, names)
    ensures result.Hashed? ==> result.text == ArrayText(Meanings(fields, names))
    ensures result.Refused? ==> FirstComposite(fields, names, result.field)
  {
    var identity, n := WriteFields(fields, names);
    if n < |names| {
      return Refused(names[n]);
    }
    return Hashed(identity + "]");
  }

  method IdentityText(fields: map<string, Token>) returns (result: Result)
    requires ValidFields(fields)
    ensures result.Hashed? <==> FiveScalars(fields)
    ensures result.Hashed? ==> result.text == FramedTexts(fields)
    ensures result.Refused? ==>
              FirstComposite(fields, ["purpose", "merchantId", "id", "status", "success"], result.field)
  {
    result := FieldsText(fields, FIELDS);
    FiveFields(fields);
    if result.Hashed? {
      FiveTexts(fields);
    }
  }

  lemma FiveFields(fields: map<string, Token>)
    ensures AllScalar(fields, FIELDS) <==> FiveScalars(fields)
  {
    if AllScalar(fields, FIELDS) {
      assert IsScalar(fields, FIELDS[0]) && IsScalar(fields, FIELDS[1]) && IsScalar(fields, FIELDS[2]);
      assert IsScalar(fields, FIELDS[3]) && IsScalar(fields, FIELDS[4]);
    }
  }

  /** What stands for one field in the array. */
  function TextOf(fields: map<string, Token>, name: string): string
    requires ValidFields(fields) && IsScalar(fields, name)
  {
    Show(Meaning(Field(fields, name)))
  }

  predicate FiveScalars(fields: map<string, Token>) {
    forall name :: name in {"purpose", "merchantId", "id", "status", "success"} ==> IsScalar(fields, name)
  }

  /** The array of the five fields. */
  function FramedTexts(fields: map<string, Token>): string
    requires ValidFields(fields) && FiveScalars(fields)
  {
    "[" + (TextOf(fields, "purpose") + "," + (TextOf(fields, "merchantId") + "," + (TextOf(fields, "id") + ","
    + (TextOf(fields, "status") + "," + (TextOf(fields, "success") + "]")))))
  }

  /** JSON.stringify of each kind of field. */
  lemma TextsExactly(fields: map<string, Token>, name: string)
    requires ValidFields(fields) && IsScalar(fields, name)
    ensures name !in fields ==> TextOf(fields, name) == "null"
    ensures name in fields ==>
              TextOf(fields, name) ==
              match fields[name]
              case BoolToken(flag) => if flag then "true" else "false"
              case StringToken(text) => CanonicalForm(text)
              case NumberToken(number) => NumberText(number)
              case _ => "null"
  {
  }

  lemma LastElement(v: Value)
    requires ValidValue(v)
    ensures Elements([v]) == Show(v) + "]"
  {
  }

  lemma NextElement(v: Value, vs: seq<Value>)
    requires ValidValue(v) && ValidValues(vs)
    ensures Elements([v] + vs) == Show(v) + "," + Elements(vs)
  {
    assert ([v] + vs)[1..] == vs;
  }

  lemma FiveTexts(fields: map<string, Token>)
    requires ValidFields(fields) && AllScalar(fields, FIELDS)
    requires FiveScalars(fields)
    ensures ArrayText(Meanings(fields, FIELDS)) == FramedTexts(fields)
  {
    hide Show, Meaning, Elements;
    var vs := Meanings(fields, FIELDS);
    assert vs[4..] == [vs[4]] && vs[3..] == [vs[3]] + vs[4..] && vs[2..] == [vs[2]] + vs[3..];
    assert vs[1..] == [vs[1]] + vs[2..] && vs == [vs[0]] + vs[1..];
    LastElement(vs[4]);
    NextElement(vs[3], vs[4..]);
    NextElement(vs[2], vs[3..]);
    NextElement(vs[1], vs[2..]);
    NextElement(vs[0], vs[1..]);
  }

  // ----- No two identities share a text

  predicate Plain(s: string) {
    forall i :: 0 <= i < |s| ==> s[i] != ',' && s[i] != ']' && s[i] != '"'
  }

  predicate Delimited(s: string) {
    s != "" && s[0] in {',', ']'}
  }

  lemma DecimalIsPlain(d: Decimal)
    requires WellFormed(d)
    ensures Plain(Print(d)) && Print(d) != "" && (Print(d)[0] == '-' || IsDigit(Print(d)[0]))
  {
    assert Plain(PrintExponent(d.exponent));
    assert Plain(PrintFraction(d));
  }

  lemma ShowStarts(v: Value)
    requires ValidValue(v)
    ensures v.Text? ==> Show(v)[0] == '"'
    ensures !v.Text? ==> Plain(Show(v)) && Show(v) != ""
    ensures v.ZeroNumber? || v.Number? ==> Show(v)[0] == '-' || IsDigit(Show(v)[0])
  {
    if v.Number? {
      LayoutIsJson(v.negative, v.digits, v.point);
      DecimalIsPlain(Layout(v.negative, v.digits, v.point));
    }
  }

  /** How far a text runs before the first comma or bracket. */
  function PlainRun(s: string): nat {
    if s == "" || s[0] in {',', ']'} then 0 else 1 + PlainRun(s[1..])
  }

  lemma {:induction false} PlainRunOf(p: string, x: string)
    requires Plain(p) && Delimited(x)
    ensures PlainRun(p + x) == |p|
  {
    if p == "" {
      assert p + x == x;
    } else {
      PlainRunOf(p[1..], x);
      assert (p + x)[1..] == p[1..] + x;
    }
  }

  lemma PlainRunsEndTogether(p: string, q: string, x: string, y: string)
    requires Plain(p) && Plain(q) && Delimited(x) && Delimited(y) && p + x == q + y
    ensures p == q && x == y
  {
    PlainRunOf(p, x);
    PlainRunOf(q, y);
    var whole := p + x;
    assert p == whole[..|p|] && x == whole[|p|..];
    assert q == whole[..|q|] && y == whole[|q|..];
  }

  lemma NumberIsNotZero(number: Float)
    requires number.Finite? && Canonical(number)
    ensures NumberText(number) != "0"
  {
    hide Parse;
    var d, zero := Layout(number.negative, number.digits, number.point), Decimal(false, "0", "", NoExponent);
    LayoutIsJson(number.negative, number.digits, number.point);
    ParsePrint(d);
    ParsePrint(zero);
    assert Print(zero) == "0";
    assert d != zero;
  }

  lemma PlainShowIsInjective(v: Value, w: Value)
    requires ValidValue(v) && ValidValue(w) && !v.Text? && !w.Text?
    requires Show(v) == Show(w)
    ensures v == w
  {
    ShowStarts(v);
    ShowStarts(w);
    if v.Number? && w.Number? {
      NumberTextIsInjective(Finite(v.negative, v.digits, v.point), Finite(w.negative, w.digits, w.point));
    } else if v.Number? && w.ZeroNumber? {
      NumberIsNotZero(Finite(v.negative, v.digits, v.point));
    } else if w.Number? && v.ZeroNumber? {
      NumberIsNotZero(Finite(w.negative, w.digits, w.point));
    }
  }

  /** One value followed by a comma or a bracket is determined by the text,
      whatever its strings contain. */
  lemma ValueEndsTogether(v: Value, w: Value, x: string, y: string)
    requires ValidValue(v) && ValidValue(w) && Delimited(x) && Delimited(y)
    requires Show(v) + x == Show(w) + y
    ensures v == w && x == y
  {
    ShowStarts(v);
    ShowStarts(w);
    assert (Show(v) + x)[0] == Show(v)[0] && (Show(w) + y)[0] == Show(w)[0];
    if v.Text? && w.Text? {
      QuoteIsPrefixFree(v.units, w.units, x, y);
    } else if !v.Text? && !w.Text? {
      PlainRunsEndTogether(Show(v), Show(w), x, y);
      PlainShowIsInjective(v, w);
    }
  }

  lemma {:induction false} ElementsAreInjective(vs: seq<Value>, ws: seq<Value>)
    requires ValidValues(vs) && ValidValues(ws) && Elements(vs) == Elements(ws)
    ensures vs == ws
  {
    hide Show, ValidValue;
    var x := if |vs| == 1 then "]" else "," + Elements(vs[1..]);
    var y := if |ws| == 1 then "]" else "," + Elements(ws[1..]);
    ValueEndsTogether(vs[0], ws[0], x, y);
    assert x[0] == y[0];
    if |vs| > 1 {
      assert x[1..] == Elements(vs[1..]) && y[1..] == Elements(ws[1..]);
      ElementsAreInjective(vs[1..], ws[1..]);
    }
    assert vs == [vs[0]] + vs[1..] && ws == [ws[0]] + ws[1..];
  }

  predicate SameField(a: map<string, Token>, b: map<string, Token>, name: string)
    requires ValidFields(a) && ValidFields(b) && IsScalar(a, name) && IsScalar(b, name)
  {
    Meaning(Field(a, name)) == Meaning(Field(b, name))
  }

  /** Two bodies give the same text to hash exactly when all the named fields
      have equal JavaScript values. */
  lemma TextIsUnambiguous(a: map<string, Token>, b: map<string, Token>, names: seq<string>)
    requires ValidFields(a) && ValidFields(b) && names != []
    requires AllScalar(a, names) && AllScalar(b, names)
    ensures ArrayText(Meanings(a, names)) == ArrayText(Meanings(b, names)) <==>
            forall i :: 0 <= i < |names| ==> SameField(a, b, names[i])
  {
    var vs, ws := Meanings(a, names), Meanings(b, names);
    if ArrayText(vs) == ArrayText(ws) {
      assert ArrayText(vs)[1..] == Elements(vs);
      assert ArrayText(ws)[1..] == Elements(ws);
      ElementsAreInjective(vs, ws);
      forall i | 0 <= i < |names| ensures SameField(a, b, names[i]) {
        assert vs[i] == ws[i];
      }
    }
    if forall i :: 0 <= i < |names| ==> SameField(a, b, names[i]) {
      assert vs == ws;
    }
  }

  /** The text behind the event ID: purpose, merchantId, id, status and success. */
  lemma EventTextIsUnambiguous(a: map<string, Token>, b: map<string, Token>)
    requires ValidFields(a) && ValidFields(b)
    requires FiveScalars(a) && FiveScalars(b)
    ensures FramedTexts(a) == FramedTexts(b) <==>
            && SameField(a, b, "purpose") && SameField(a, b, "merchantId") && SameField(a, b, "id")
            && SameField(a, b, "status") && SameField(a, b, "success")
  {
    hide FramedTexts, SameField, Meanings, ArrayText, FiveScalars;
    FiveFields(a);
    FiveFields(b);
    FiveTexts(a);
    FiveTexts(b);
    TextIsUnambiguous(a, b, FIELDS);
    FiveSameFields(a, b);
  }

  lemma FiveSameFields(a: map<string, Token>, b: map<string, Token>)
    requires ValidFields(a) && ValidFields(b) && AllScalar(a, FIELDS) && AllScalar(b, FIELDS)
    requires FiveScalars(a) && FiveScalars(b)
    ensures (forall i :: 0 <= i < |FIELDS| ==> SameField(a, b, FIELDS[i])) <==>
            && SameField(a, b, "purpose") && SameField(a, b, "merchantId") && SameField(a, b, "id")
            && SameField(a, b, "status") && SameField(a, b, "success")
  {
    hide SameField;
    if forall i :: 0 <= i < |FIELDS| ==> SameField(a, b, FIELDS[i]) {
      assert SameField(a, b, FIELDS[0]) && SameField(a, b, FIELDS[1]) && SameField(a, b, FIELDS[2]);
      assert SameField(a, b, FIELDS[3]) && SameField(a, b, FIELDS[4]);
    }
  }

  /** When two fields have the same JavaScript value: null and what counts as null, the same
      boolean, the same code units, or the same number with -0 as 0. */
  lemma SameFieldExactly(a: map<string, Token>, b: map<string, Token>, name: string)
    requires ValidFields(a) && ValidFields(b) && IsScalar(a, name) && IsScalar(b, name)
    ensures SameField(a, b, name) <==>
            var x, y := Field(a, name), Field(b, name);
            match x
            case BoolToken(_) => x == y
            case StringToken(text) => y.StringToken? && DecodeToken(y.text) == DecodeToken(text)
            case NumberToken(Finite(_, _, _)) => x == y
            case NumberToken(Zero(_)) => y.NumberToken? && y.number.Zero?
            case _ => y.Absent? || y.NullToken? || (y.NumberToken? && (y.number.Infinite? || y.number.NotANumber?))
  {
  }
}
