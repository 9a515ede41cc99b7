/** The order in which an appearance document is written (`src/codec.cpp:299-328`),
    and what the round trip needs to know of the real format. */
module AppearanceLayout {
  import opened Bytes
  import opened Documents
  import opened Fragment
  import opened Appearance
  import opened AppearanceMeaning
  import opened AppearanceText
  import opened AppearanceLines
  import opened AppearanceRoundTrip
  import AppearanceFormat
  import Quoting
  import Utf8

  function Name(s: string): Key {
    AppearanceFormat.Ascii(s)
  }

  const THEME_KEYS: seq<Key> := [Name("scheme"), Name("accent")]

  const TYPOGRAPHY_KEYS: seq<Key> := [
    Name("ui_family"), Name("ui_size"), Name("monospace_family"), Name("monospace_size"),
    Name("title_family"), Name("title_size"), Name("display_family"), Name("display_size")
  ]

  const ICONS_KEYS: seq<Key> := [Name("theme"), Name("fallback"), Name("cursor")]

  const LAYOUT_KEYS: seq<Key> := [Name("scale")]

  const SHAPE_KEYS: seq<Key> := [Name("style"), Name("scale"), Name("base_radius"), Name("base_chamfer")]

  const ORDER: Layout := [
    (Name("theme"), THEME_KEYS),
    (Name("typography"), TYPOGRAPHY_KEYS),
    (Name("icons"), ICONS_KEYS),
    (Name("layout"), LAYOUT_KEYS),
    (Name("shape"), SHAPE_KEYS)
  ]

  predicate Lower(s: string) {
    |s| > 0 && forall i :: 0 <= i < |s| ==> 'a' <= s[i] <= 'z' || s[i] == '_'
  }

  lemma LowerIsBare(s: string)
    requires Lower(s)
    ensures BareName(Name(s))
  {}

  lemma NamesDiffer(s: string, t: string)
    requires Lower(s) && Lower(t) && (|s| != |t| || s[0] != t[0] || (|s| > 1 && |t| > 1 && s[1] != t[1]))
    ensures Name(s) != Name(t)
  {
    assert Name(s)[0] == s[0] as int && Name(t)[0] == t[0] as int;
    if |s| > 1 && |t| > 1 {
      assert Name(s)[1] == s[1] as int && Name(t)[1] == t[1] as int;
    }
  }

  lemma TypographyKeys()
    ensures BareNames(TYPOGRAPHY_KEYS) && Distinct(TYPOGRAPHY_KEYS)
  {
    hide Name;
    LowerIsBare("ui_family");
    LowerIsBare("ui_size");
    LowerIsBare("monospace_family");
    LowerIsBare("monospace_size");
    LowerIsBare("title_family");
    LowerIsBare("title_size");
    LowerIsBare("display_family");
    LowerIsBare("display_size");
    Lengths();
    NamesDiffer("monospace_size", "display_family");
    NamesDiffer("title_family", "display_size");
  }

  lemma Lengths()
    ensures |Name("ui_family")| == 9 && |Name("ui_size")| == 7 && |Name("monospace_family")| == 16
    ensures |Name("monospace_size")| == 14 && |Name("title_family")| == 12 && |Name("title_size")| == 10
    ensures |Name("display_family")| == 14 && |Name("display_size")| == 12
    ensures |Name("scheme")| == 6 && |Name("accent")| == 6 && |Name("theme")| == 5 && |Name("fallback")| == 8
    ensures |Name("cursor")| == 6 && |Name("scale")| == 5 && |Name("style")| == 5
    ensures |Name("base_radius")| == 11 && |Name("base_chamfer")| == 12
    ensures |Name("typography")| == 10 && |Name("icons")| == 5 && |Name("layout")| == 6 && |Name("shape")| == 5
  {}

  lemma OtherKeys()
    ensures BareNames(THEME_KEYS) && Distinct(THEME_KEYS) && BareNames(ICONS_KEYS) && Distinct(ICONS_KEYS)
    ensures BareNames(LAYOUT_KEYS) && Distinct(LAYOUT_KEYS) && BareNames(SHAPE_KEYS) && Distinct(SHAPE_KEYS)
  {
    hide Name;
    LowerIsBare("scheme");
    LowerIsBare("accent");
    LowerIsBare("theme");
    LowerIsBare("fallback");
    LowerIsBare("cursor");
    LowerIsBare("scale");
    LowerIsBare("style");
    LowerIsBare("base_radius");
    LowerIsBare("base_chamfer");
    Lengths();
    NamesDiffer("scheme", "accent");
    NamesDiffer("style", "scale");
  }

  lemma TablesDiffer()
    ensures forall i, j :: 0 <= i < j < |ORDER| ==> ORDER[i].0 != ORDER[j].0
    ensures forall i :: 0 <= i < |ORDER| ==> BareName(ORDER[i].0)
  {
    hide Name;
    Lengths();
    LowerIsBare("theme");
    LowerIsBare("typography");
    LowerIsBare("icons");
    LowerIsBare("layout");
    LowerIsBare("shape");
    NamesDiffer("theme", "icons");
    NamesDiffer("theme", "shape");
    NamesDiffer("icons", "shape");
  }

  /** Field by field, the layout is the format's names and optional numbers. */
  lemma FieldsOfOrder(name: FieldName)
    ensures HasField(ORDER, name) <==>
      || (name.0 == ORDER[0].0 && name.1 in THEME_KEYS) || (name.0 == ORDER[1].0 && name.1 in TYPOGRAPHY_KEYS)
      || (name.0 == ORDER[2].0 && name.1 in ICONS_KEYS) || (name.0 == ORDER[3].0 && name.1 in LAYOUT_KEYS)
      || (name.0 == ORDER[4].0 && name.1 in SHAPE_KEYS)
  {
    hide Name;
    assert ORDER[0].1 == THEME_KEYS && ORDER[1].1 == TYPOGRAPHY_KEYS && ORDER[2].1 == ICONS_KEYS;
    assert ORDER[3].1 == LAYOUT_KEYS && ORDER[4].1 == SHAPE_KEYS;
  }

  lemma KnownFields(name: FieldName)
    ensures Known(AppearanceFormat.APPEARANCE, name) <==>
      || name in AppearanceFormat.NAMES
      || name == (Name("shape"), Name("base_radius")) || name == (Name("shape"), Name("base_chamfer"))
  {
    hide AppearanceFormat.FieldOf, AppearanceFormat.Ascii, AppearanceFormat.InRange;
  }

  lemma NamesByTable(name: FieldName)
    ensures name in AppearanceFormat.NAMES || name == (Name("shape"), Name("base_radius"))
            || name == (Name("shape"), Name("base_chamfer")) <==>
      || (name.0 == Name("theme") && name.1 in THEME_KEYS) || (name.0 == Name("typography") && name.1 in TYPOGRAPHY_KEYS)
      || (name.0 == Name("icons") && name.1 in ICONS_KEYS) || (name.0 == Name("layout") && name.1 in LAYOUT_KEYS)
      || (name.0 == Name("shape") && name.1 in SHAPE_KEYS)
  {
    hide AppearanceFormat.Ascii;
  }

  lemma TablesHaveFields(i: nat)
    requires i < |ORDER|
    ensures ORDER[i].0 in TableNames(AppearanceFormat.APPEARANCE)
  {
    hide AppearanceFormat.FieldOf, AppearanceFormat.Ascii, AppearanceFormat.InRange;
    var name := (ORDER[i].0, ORDER[i].1[0]);
    assert name in AppearanceFormat.NAMES;
    assert name in AppearanceFormat.APPEARANCE.fields;
  }

  /** The order has every member of an appearance once. */
  lemma OrderLaysOut()
    ensures LaysOut(ORDER, AppearanceFormat.APPEARANCE)
  {
    hide Known, HasField, Name, TableNames, BareName, BareNames, AppearanceFormat.APPEARANCE, AppearanceFormat.NAMES;
    TablesDiffer();
    TypographyKeys();
    OtherKeys();
    forall i | 0 <= i < |ORDER| ensures ORDER[i].0 in TableNames(AppearanceFormat.APPEARANCE) {
      TablesHaveFields(i);
    }
    forall name: FieldName ensures Known(AppearanceFormat.APPEARANCE, name) <==> HasField(ORDER, name) {
      FieldsOfOrder(name);
      KnownFields(name);
      NamesByTable(name);
    }
  }

  lemma StylesAreUtf8(text: ByteString)
    requires text in AppearanceFormat.STYLES
    ensures Utf8.Decode(text).Some?
  {
    hide AppearanceFormat.Ascii, Utf8.Decode;
    LiteralIsUtf8("inherit");
    LiteralIsUtf8("hybrid");
    LiteralIsUtf8("rounded");
    LiteralIsUtf8("chamfered");
  }

  lemma LiteralIsUtf8(s: string)
    ensures Utf8.Decode(AppearanceFormat.Ascii(s)).Some?
  {
    AppearanceFormat.AsciiIsUtf8(AppearanceFormat.Ascii(s));
  }

  lemma SettingChecksText(name: FieldName, value: Value)
    requires AppearanceFormat.FieldOf(name).accepts(value)
    ensures (value.Text? ==> Utf8.Decode(value.text).Some?) && (value.Float? ==> value.double.Number?)
  {
    hide Utf8.Decode, AppearanceFormat.Ascii;
    if value.Text? && value.text in AppearanceFormat.STYLES {
      StylesAreUtf8(value.text);
    }
  }

  /** The appearance format checks what the round trip relies on. */
  lemma AppearanceChecksText()
    ensures ChecksText(AppearanceFormat.APPEARANCE)
  {
    hide AppearanceFormat.FieldOf, Utf8.Decode;
    var format := AppearanceFormat.APPEARANCE;
    forall name: FieldName, value | Accepted(format, name, value)
      ensures (value.Text? ==> Utf8.Decode(value.text).Some?) && (value.Float? ==> value.double.Number?)
    {
      if name in format.fields {
        AppearanceFormat.FieldsAreNamed(name);
        SettingChecksText(name, value);
      } else {
        AppearanceFormat.ShapeHasFields(name);
      }
    }
  }

  // ---------------------------------------------------------------------------
  // The size

  /** Seventeen significant digits, a sign, a point and an exponent. */
  ghost predicate ShortNumbers(numbers: Numbers) {
    forall d :: d in numbers.doubles && d.Number? ==> |numbers.write(d)| <= 32
  }

  lemma {:induction false} QuotedSize(text: ByteString)
    ensures |Quoting.QuoteBytes(text)| <= 2 * |text|
  {
    if text != [] {
      QuotedSize(text[1..]);
    }
  }

  lemma StylesAreShort(text: ByteString)
    requires text in AppearanceFormat.STYLES
    ensures |text| <= 9
  {}

  lemma SettingIsShort(name: FieldName, value: Value)
    requires AppearanceFormat.FieldOf(name).accepts(value)
    ensures value.Text? ==> |value.text| <= 256
    ensures value.Float? ==> value.double.Number?
    ensures value.Integer? ==> 6 <= value.number <= 48
    ensures value.Text? || value.Float? || value.Integer?
  {
    hide Utf8.Decode, AppearanceFormat.Ascii;
    if value.Text? && value.text in AppearanceFormat.STYLES {
      StylesAreShort(value.text);
    }
  }

  lemma AcceptedIsShort(name: FieldName, value: Value)
    requires Accepted(AppearanceFormat.APPEARANCE, name, value)
    ensures value.Text? ==> |value.text| <= 256
    ensures value.Float? ==> value.double.Number?
    ensures value.Integer? ==> 6 <= value.number <= 48
    ensures value.Text? || value.Float? || value.Integer?
  {
    hide AppearanceFormat.FieldOf, Utf8.Decode;
    if name in AppearanceFormat.APPEARANCE.fields {
      AppearanceFormat.FieldsAreNamed(name);
      SettingIsShort(name, value);
    } else {
      AppearanceFormat.ShapeHasFields(name);
    }
  }

  lemma LexemeIsShort(numbers: Numbers, name: FieldName, value: Value)
    requires ShortNumbers(numbers) && Accepted(AppearanceFormat.APPEARANCE, name, value)
    requires value.Float? ==> value.double in numbers.doubles
    ensures |Lexeme(numbers, value)| <= 514
  {
    hide Accepted, Quoting.QuoteBytes;
    AcceptedIsShort(name, value);
    match value {
      case Text(text) => QuotedSize(text);
      case Integer(number) =>
        assert |PrintNat(number / 10)| == 1;
      case _ =>
    }
  }

  ghost predicate ShortLines(lines: seq<ByteString>) {
    forall i :: 0 <= i < |lines| ==> |lines[i]| <= 600
  }

  lemma {:induction false} ConcatSize(lines: seq<ByteString>)
    requires ShortLines(lines)
    ensures |Concat(lines)| <= 600 * |lines|
  {
    if lines != [] {
      ConcatSize(lines[1..]);
    }
  }

  ghost predicate ShortNames(keys: seq<Key>) {
    forall i :: 0 <= i < |keys| ==> |keys[i]| <= 16
  }

  lemma {:induction false} MemberLinesAreShort(numbers: Numbers, table: Key, keys: seq<Key>, values: Values)
    requires ShortNumbers(numbers) && ShortNames(keys) && OnlyDoubles(numbers, values)
    requires forall name :: name in values ==> Accepted(AppearanceFormat.APPEARANCE, name, values[name])
    ensures ShortLines(MemberLines(numbers, table, keys, values)) && |MemberLines(numbers, table, keys, values)| <= |keys|
  {
    hide Accepted, Lexeme, ShortNumbers;
    if keys != [] {
      var last := |keys| - 1;
      MemberLinesAreShort(numbers, table, keys[..last], values);
      if (table, keys[last]) in values {
        LexemeIsShort(numbers, (table, keys[last]), values[(table, keys[last])]);
      }
    }
  }

  function LineCount(layout: Layout): nat {
    if layout == [] then 1 else LineCount(layout[..|layout| - 1]) + 2 + |layout[|layout| - 1].1|
  }

  lemma {:induction false} DocumentLinesAreShort(numbers: Numbers, layout: Layout, values: Values)
    requires ShortNumbers(numbers) && OnlyDoubles(numbers, values)
    requires forall i :: 0 <= i < |layout| ==> |layout[i].0| <= 16 && ShortNames(layout[i].1)
    requires forall name :: name in values ==> Accepted(AppearanceFormat.APPEARANCE, name, values[name])
    ensures ShortLines(DocumentLines(numbers, layout, values)) && |DocumentLines(numbers, layout, values)| <= LineCount(layout)
    decreases |layout|
  {
    hide Accepted, ShortNumbers, MemberLines, ShortNames;
    if layout != [] {
      var last := |layout| - 1;
      DocumentLinesAreShort(numbers, layout[..last], values);
      MemberLinesAreShort(numbers, layout[last].0, layout[last].1, values);
    }
  }

  lemma OrderIsShort()
    ensures LineCount(ORDER) == 29
    ensures forall i :: 0 <= i < |ORDER| ==> |ORDER[i].0| <= 16 && ShortNames(ORDER[i].1)
  {
    hide Name;
    Lengths();
    var none: Layout := [];
    assert ORDER[..4][..3][..2][..1][..0] == none;
    assert ORDER[..4][..3][..2][..1] == ORDER[..1] && ORDER[..4][..3][..2] == ORDER[..2] && ORDER[..4][..3] == ORDER[..3];
    assert LineCount(ORDER[..1]) == 5;
    assert LineCount(ORDER[..2]) == 15;
    assert LineCount(ORDER[..3]) == 20;
    assert LineCount(ORDER[..4]) == 23;
  }

  /** A written appearance is never too long to be read. */
  lemma AppearanceIsShort(numbers: Numbers, values: Values)
    requires ShortNumbers(numbers) && OnlyDoubles(numbers, values)
    requires Serialize(AppearanceFormat.APPEARANCE, ORDER, numbers, values).Some?
    ensures |Serialize(AppearanceFormat.APPEARANCE, ORDER, numbers, values).value| <= MAXIMUM_DOCUMENT_BYTES
  {
    hide AppearanceFormat.APPEARANCE, Accepted, Canonical, DocumentLines, ORDER, ShortNumbers, OnlyDoubles;
    var canonical := Canonical(AppearanceFormat.APPEARANCE, values);
    CanonicalDoubles(AppearanceFormat.APPEARANCE, numbers, values);
    OrderIsShort();
    DocumentLinesAreShort(numbers, ORDER, canonical);
    ConcatSize(DocumentLines(numbers, ORDER, canonical));
  }

  /** What is written for an appearance reads back as the normalized appearance,
      exactly when quoting leaves no raw control character in any of its names. */
  lemma AppearanceRoundTrips(numbers: Numbers, values: Values)
    requires Proper(AppearanceFormat.APPEARANCE, numbers, values) && Faithful(numbers) && ShortNumbers(numbers)
    requires Serialize(AppearanceFormat.APPEARANCE, ORDER, numbers, values).Some?
    ensures var text := Serialize(AppearanceFormat.APPEARANCE, ORDER, numbers, values).value;
      ParseText(AppearanceFormat.APPEARANCE, numbers, text)
      == if forall name :: name in values ==> QuotableValue(CanonicalAt(AppearanceFormat.APPEARANCE, name, values[name]))
         then Some(Canonical(AppearanceFormat.APPEARANCE, values)) else None
  {
    hide *;
    AppearanceFormat.AppearanceIsWellFormed();
    OrderLaysOut();
    AppearanceChecksText();
    ProperDoubles(AppearanceFormat.APPEARANCE, numbers, values);
    AppearanceIsShort(numbers, values);
    SerializeRoundTrip(AppearanceFormat.APPEARANCE, ORDER, numbers, values);
  }

  lemma ProperDoubles(format: Format, numbers: Numbers, values: Values)
    requires Proper(format, numbers, values)
    ensures OnlyDoubles(numbers, values)
  {}

  // ---------------------------------------------------------------------------
  // An appearance

  const ONE: Double := Number(1.0)
  const TWELVE: Double := Number(12.0)

  /** Two doubles, printed as `number` prints them. */
  const FEW: Numbers := Numbers(
    {ONE, TWELVE},
    (d: Double) => if d == ONE then Name("1.0") else Name("12.0"),
    (s: ByteString) => if s == Name("1.0") then Some(ONE) else if s == Name("12.0") then Some(TWELVE) else None)

  lemma FewAreFaithful()
    ensures Faithful(FEW) && ShortNumbers(FEW)
  {
    assert ONE != TWELVE;
    assert |Name("1.0")| == 3 && |Name("12.0")| == 4;
    assert Name("1.0")[1] == DOT && Name("12.0")[2] == DOT;
  }

  const RADIUS: FieldName := (AppearanceFormat.SHAPE, AppearanceFormat.BASE_RADIUS)

  /** The defaults, with one of the optional members. */
  const SAMPLE: Values :=
    (map name | name in AppearanceFormat.NAMES :: AppearanceFormat.FieldOf(name).default)[RADIUS := Float(TWELVE)]

  /** A field whose default can be written and read back. */
  ghost predicate PlainField(field: Setting) {
    && QuotableValue(field.default)
    && (field.default.Float? ==> field.default.double == ONE)
    && (field.default.Integer? ==> 0 <= field.default.number < 100)
  }

  lemma IdentifierIsPlain(default: string, maximum: nat)
    requires forall i :: 0 <= i < |default| ==> ' ' <= default[i] <= 'z'
    ensures PlainField(AppearanceFormat.Identifier(default, maximum))
  {}

  lemma IdentifiersArePlain()
    ensures PlainField(AppearanceFormat.Identifier("holonight-dark", 128))
    ensures PlainField(AppearanceFormat.Identifier("blue", 128))
    ensures PlainField(AppearanceFormat.Identifier("Inter", 256))
    ensures PlainField(AppearanceFormat.Identifier("JetBrains Mono", 256))
    ensures PlainField(AppearanceFormat.Identifier("Audiowide", 256))
    ensures PlainField(AppearanceFormat.Identifier("Rajdhani", 256))
    ensures PlainField(AppearanceFormat.Identifier("HoloNight", 256))
    ensures PlainField(AppearanceFormat.Identifier("Papirus", 256))
    ensures PlainField(AppearanceFormat.Identifier("default", 256))
  {
    hide PlainField, AppearanceFormat.Identifier;
    IdentifierIsPlain("holonight-dark", 128);
    IdentifierIsPlain("blue", 128);
    IdentifierIsPlain("Inter", 256);
    IdentifierIsPlain("JetBrains Mono", 256);
    IdentifierIsPlain("Audiowide", 256);
    IdentifierIsPlain("Rajdhani", 256);
    IdentifierIsPlain("HoloNight", 256);
    IdentifierIsPlain("Papirus", 256);
    IdentifierIsPlain("default", 256);
  }

  lemma OthersArePlain()
    ensures forall size :: 6 <= size <= 48 ==> PlainField(AppearanceFormat.FontSize(size))
    ensures PlainField(AppearanceFormat.Scale(0.5, 3.0)) && PlainField(AppearanceFormat.Scale(0.25, 4.0))
    ensures PlainField(AppearanceFormat.StyleField())
  {
    assert forall i :: 0 <= i < |"inherit"| ==> ' ' <= "inherit"[i] <= 'z';
  }

  lemma DefaultIsPlain(name: FieldName)
    ensures PlainField(AppearanceFormat.FieldOf(name))
  {
    hide PlainField, AppearanceFormat.Ascii, AppearanceFormat.Identifier, AppearanceFormat.FontSize, AppearanceFormat.Scale,
      AppearanceFormat.StyleField;
    IdentifiersArePlain();
    OthersArePlain();
  }

  /** A member of the sample is valid, normalized, quotable and of its type. */
  ghost predicate GoodMember(name: FieldName, value: Value) {
    var format := AppearanceFormat.APPEARANCE;
    && Known(format, name) && SameKind(value, LikeOf(format, name)) && Accepted(format, name, value)
    && CanonicalAt(format, name, value) == value && QuotableValue(value)
    && (value.Integer? ==> 0 <= value.number < 100)
    && (value.Float? ==> value.double in FEW.doubles)
  }

  lemma DefaultIsGood(name: FieldName)
    requires name in AppearanceFormat.NAMES
    ensures GoodMember(name, AppearanceFormat.FieldOf(name).default)
  {
    hide AppearanceFormat.FieldOf, AppearanceFormat.Ascii, Quoting.Quotable, Normalized, Name;
    assert name in AppearanceFormat.APPEARANCE.fields;
    AppearanceFormat.FieldIsGood(name);
    DefaultIsPlain(name);
  }

  lemma RadiusIsOptional()
    ensures RADIUS !in AppearanceFormat.APPEARANCE.fields && RADIUS in AppearanceFormat.APPEARANCE.optionals
    ensures AppearanceFormat.APPEARANCE.optionals[RADIUS](Float(TWELVE))
  {
    hide AppearanceFormat.FieldOf, AppearanceFormat.Ascii, AppearanceFormat.NAMES;
    RadiusIsNoName();
    if RADIUS in AppearanceFormat.APPEARANCE.fields {
      AppearanceFormat.FieldsAreNamed(RADIUS);
    }
    KeysOfOptionals();
  }

  lemma RadiusIsNoName()
    ensures RADIUS !in AppearanceFormat.NAMES
  {
    hide AppearanceFormat.Ascii, AppearanceFormat.NAMES;
    if RADIUS in AppearanceFormat.NAMES {
      AppearanceFormat.NamesAreFields(RADIUS);
    }
  }

  lemma KeysOfOptionals()
    ensures AppearanceFormat.BASE_RADIUS != AppearanceFormat.BASE_CHAMFER
  {
    assert |AppearanceFormat.BASE_RADIUS| == 11 && |AppearanceFormat.BASE_CHAMFER| == 12;
  }

  lemma RadiusIsGood()
    ensures GoodMember(RADIUS, Float(TWELVE))
  {
    hide AppearanceFormat.APPEARANCE, RADIUS;
    RadiusIsOptional();
    assert TWELVE in FEW.doubles;
  }

  lemma SampleMember(name: FieldName)
    requires name in SAMPLE
    ensures GoodMember(name, SAMPLE[name])
  {
    hide GoodMember, AppearanceFormat.FieldOf, RADIUS, TWELVE;
    RadiusIsGood();
    if name != RADIUS {
      DefaultIsGood(name);
    }
  }

  lemma SampleHasFields()
    ensures forall name :: name in AppearanceFormat.APPEARANCE.fields ==> name in SAMPLE
  {
    hide AppearanceFormat.FieldOf;
  }

  lemma GoodIsProper(values: Values)
    requires forall name :: name in values ==> GoodMember(name, values[name])
    requires forall name :: name in AppearanceFormat.APPEARANCE.fields ==> name in values
    ensures Proper(AppearanceFormat.APPEARANCE, FEW, values)
  {
    hide AppearanceFormat.APPEARANCE, FEW, Known, SameKind, LikeOf, Accepted, CanonicalAt, QuotableValue;
  }

  lemma SampleIsProper()
    ensures Proper(AppearanceFormat.APPEARANCE, FEW, SAMPLE)
  {
    hide *;
    SampleHasFields();
    forall name | name in SAMPLE ensures GoodMember(name, SAMPLE[name]) {
      SampleMember(name);
    }
    GoodIsProper(SAMPLE);
  }

  lemma GoodIsCanonical(values: Values)
    requires forall name :: name in values ==> GoodMember(name, values[name])
    ensures Canonical(AppearanceFormat.APPEARANCE, values) == values
    ensures Serialize(AppearanceFormat.APPEARANCE, ORDER, FEW, values).Some?
    ensures forall name :: name in values ==> QuotableValue(CanonicalAt(AppearanceFormat.APPEARANCE, name, values[name]))
  {
    hide AppearanceFormat.APPEARANCE, FEW, ORDER, Known, LikeOf, Accepted, CanonicalAt, QuotableValue, DocumentLines, SameKind;
    assert Canonical(AppearanceFormat.APPEARANCE, values) == values;
  }

  /** The round trip at a concrete appearance: everything it asks for is met there. */
  lemma SampleRoundTrips()
    ensures Proper(AppearanceFormat.APPEARANCE, FEW, SAMPLE) && Faithful(FEW) && ShortNumbers(FEW)
    ensures Serialize(AppearanceFormat.APPEARANCE, ORDER, FEW, SAMPLE).Some?
    ensures ParseText(AppearanceFormat.APPEARANCE, FEW, Serialize(AppearanceFormat.APPEARANCE, ORDER, FEW, SAMPLE).value)
         == Some(SAMPLE)
  {
    hide *;
    FewAreFaithful();
    SampleIsProper();
    forall name | name in SAMPLE ensures GoodMember(name, SAMPLE[name]) {
      SampleMember(name);
    }
    GoodIsCanonical(SAMPLE);
    AppearanceRoundTrips(FEW, SAMPLE);
  }
}
