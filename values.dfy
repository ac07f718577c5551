/**
  The field classifier and value synthesiser `generateValue` (index.js:57-136):
  a fixed table of field names overrides the declared type, and the resulting
  type picks a fake value from the faker library. The library is not modelled:
  a Provider holds what each of its calls returns at the point where one value
  is generated, and only the bounds that index.js passes explicitly are assumed
  of it (Honest).
 */
module ValueSynthesis {
  import opened Wrappers
  import opened Numerals

  /** What the faker/moment calls return for one generated value. */
  datatype Provider = Provider(
    number: int,                 // faker.random.number()
    word: string,                // faker.random.word()
    between: (int, int) -> int,  // faker.random.number({min, max})
    streetName: string,          // faker.address.streetName()
    email: string,               // faker.internet.email()
    country: string,             // faker.address.country()
    city: string,                // faker.address.city()
    firstName: string,           // faker.name.firstName()
    boolean: bool,               // faker.random.boolean()
    recentDate: string)          // moment(faker.date.recent()).format('YYYY-MM-DD')

  /** The library keeps a bounded number within the bounds it is given. */
  ghost predicate Honest(f: Provider)
  {
    forall lo: int, hi: int | lo <= hi :: lo <= f.between(lo, hi) <= hi
  }

  /** What generateValue returns: a JavaScript number, string, boolean or null. */
  datatype JsValue = JsNumber(n: int) | JsString(s: string) | JsBoolean(b: bool) | JsNull

  /** The value and the console diagnostic, if one is logged. */
  datatype Generated = Generated(value: JsValue, diagnostic: Option<string>)

  const DateNames: set<string> := {"dateOfBirth", "expiration", "createdAt", "end", "start"}
  const ZipNames: set<string> := {"postalCode", "zip"}
  const EmailNames: set<string> := {"email", "email1", "email2"}
  const CityNames: set<string> := {"city", "town"}
  const PersonNames: set<string> := {"firstName", "lastName", "name"}

  /** Every field name that the first switch rewrites. */
  const OverriddenNames: set<string> :=
    DateNames + {"street"} + ZipNames + EmailNames + {"country"} + CityNames + PersonNames

  /** The types the second switch turns into single-quoted text. */
  const QuotedTypes: set<string> := {"string", "zip", "street", "email", "country", "city", "name", "Date"}

  /** Every type the second switch has a case for. */
  const KnownTypes: set<string> := QuotedTypes + {"number", "boolean"}

  /** The first switch: the type after the name-based override. */
  function EffectiveType(typeName: string, propertyName: string): string
  {
    if propertyName in DateNames then "Date"
    else if propertyName == "street" then "street"
    else if propertyName in ZipNames then "zip"
    else if propertyName in EmailNames then "email"
    else if propertyName == "country" then "country"
    else if propertyName in CityNames then "city"
    else if propertyName in PersonNames then "name"
    else typeName
  }

  function Quote(s: string): string
  {
    "'" + s + "'"
  }

  /** generateValue(type, propertyName) */
  function GenerateValue(typeName: string, propertyName: string, f: Provider): Generated
  {
    var t := EffectiveType(typeName, propertyName);
    if t == "number" then Generated(JsNumber(f.number), None)
    else if t == "string" then Generated(JsString(Quote(f.word)), None)
    else if t == "zip" then Generated(JsString(Quote(Decimal(f.between(10000, 99999)))), None)
    else if t == "street" then
      Generated(JsString(Quote(f.streetName + " " + Decimal(f.between(1, 200)))), None)
    else if t == "email" then Generated(JsString(Quote(f.email)), None)
    else if t == "country" then Generated(JsString(Quote(f.country)), None)
    else if t == "city" then Generated(JsString(Quote(f.city)), None)
    else if t == "name" then Generated(JsString(Quote(f.firstName)), None)
    else if t == "boolean" then Generated(JsBoolean(f.boolean), None)
    else if t == "Date" then Generated(JsString(Quote(f.recentDate)), None)
    else Generated(JsNull, Some("Property type not found " + t))
  }

  /** `${value}`: how a template literal writes each kind of value. */
  function Interpolate(v: JsValue): string
  {
    match v
    case JsNumber(n) => Decimal(n)
    case JsString(s) => s
    case JsBoolean(b) => if b then "true" else "false"
    case JsNull => "null"
  }

  /** The text a field's value takes in the emitted file. */
  function Literal(typeName: string, propertyName: string, f: Provider): string
  {
    Interpolate(GenerateValue(typeName, propertyName, f).value)
  }

  predicate IsQuoted(s: string)
  {
    |s| >= 2 && s[0] == '\'' && s[|s| - 1] == '\''
  }

  /**
    A name in the table decides the value whatever the declared type; any
    other name keeps its declared type.
   */
  lemma NameOverridesDeclaredType(t1: string, t2: string, name: string, f: Provider)
    ensures name in OverriddenNames ==> GenerateValue(t1, name, f) == GenerateValue(t2, name, f)
    ensures name !in OverriddenNames ==> EffectiveType(t1, name) == t1
  {
  }

  /** The value each overridden name produces. */
  lemma OverriddenValues(t: string, name: string, f: Provider)
    ensures name in DateNames ==> Literal(t, name, f) == Quote(f.recentDate)
    ensures name == "street" ==>
      Literal(t, name, f) == Quote(f.streetName + " " + Decimal(f.between(1, 200)))
    ensures name in ZipNames ==> Literal(t, name, f) == Quote(Decimal(f.between(10000, 99999)))
    ensures name in EmailNames ==> Literal(t, name, f) == Quote(f.email)
    ensures name == "country" ==> Literal(t, name, f) == Quote(f.country)
    ensures name in CityNames ==> Literal(t, name, f) == Quote(f.city)
    ensures name in PersonNames ==> Literal(t, name, f) == Quote(f.firstName)
  {
  }

  /**
    The shape of every literal: quoted exactly for the textual types, a bare
    number or boolean for `number` and `boolean`, and `null` with the
    diagnostic naming the declared type for everything else.
   */
  lemma LiteralForms(t: string, name: string, f: Provider)
    ensures IsQuoted(Literal(t, name, f)) <==> EffectiveType(t, name) in QuotedTypes
    ensures EffectiveType(t, name) == "number" ==> Literal(t, name, f) == Decimal(f.number)
    ensures EffectiveType(t, name) == "boolean" ==>
      Literal(t, name, f) == (if f.boolean then "true" else "false")
    ensures GenerateValue(t, name, f).diagnostic.Some? <==> EffectiveType(t, name) !in KnownTypes
    ensures GenerateValue(t, name, f).diagnostic.Some? ==>
      && Literal(t, name, f) == "null"
      && GenerateValue(t, name, f).diagnostic.value == "Property type not found " + t
  {
    var k := EffectiveType(t, name);
    var lit := Literal(t, name, f);
    if k in QuotedTypes {
      assert lit[0] == '\'' && lit[|lit| - 1] == '\'';
    } else if k == "number" {
      assert lit[0] == '-' || IsDigit(lit[0]);
    } else if k == "boolean" {
      assert lit[0] == 't' || lit[0] == 'f';
    } else {
      assert lit == "null";
    }
  }

  /** A zip is a quoted five-digit number between 10000 and 99999. */
  lemma ZipLiteral(t: string, name: string, f: Provider)
    requires Honest(f) && EffectiveType(t, name) == "zip"
    ensures var lit := Literal(t, name, f);
      && |lit| == 7 && lit[0] == '\'' && lit[6] == '\''
      && (forall i | 1 <= i < 6 :: IsDigit(lit[i]))
      && 10000 <= ParseDigits(lit[1..6]) <= 99999
  {
    var n := f.between(10000, 99999);
    assert 10000 <= n <= 99999;
    FiveDigits(n);
    DigitsRoundTrip(n);
    var lit := Literal(t, name, f);
    assert lit == Quote(Digits(n));
    assert lit[1..6] == Digits(n);
  }

  /** A street is a quoted street name, a space and a house number from 1 to 200. */
  lemma StreetLiteral(t: string, name: string, f: Provider)
    requires Honest(f) && EffectiveType(t, name) == "street"
    ensures var lit := Literal(t, name, f); var h := Digits(f.between(1, 200));
      && lit == Quote(f.streetName + " " + h)
      && 1 <= |h| <= 3 && h[0] != '0'
      && 1 <= ParseDigits(h) <= 200
  {
    var n := f.between(1, 200);
    assert 1 <= n <= 200;
    AtMostThreeDigits(n);
    DigitsRoundTrip(n);
  }
}
