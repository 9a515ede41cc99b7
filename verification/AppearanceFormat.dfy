/** The fields of an appearance document, their defaults and ranges
    (`include/holonight/config/appearance.h`, `validate` in `src/appearance.cpp`). */
module AppearanceFormat {
  import opened Bytes
  import opened Documents
  import opened Appearance
  import Utf8

  const OTHER: Byte := 63

  /** The bytes of an ASCII literal. */
  function Ascii(s: string): (r: ByteString)
    ensures |r| == |s|
    ensures forall i :: 0 <= i < |s| ==> r[i] == (if s[i] as int < 128 then s[i] as int else OTHER)
  {
    seq(|s|, i requires 0 <= i < |s| => if s[i] as int < 128 then s[i] as int else OTHER)
  }

  const THEME: Key := Ascii("theme")
  const TYPOGRAPHY: Key := Ascii("typography")
  const ICONS: Key := Ascii("icons")
  const LAYOUT: Key := Ascii("layout")
  const SHAPE: Key := Ascii("shape")
  const SCALE: Key := Ascii("scale")
  const STYLE: Key := Ascii("style")
  const BASE_RADIUS: Key := Ascii("base_radius")
  const BASE_CHAMFER: Key := Ascii("base_chamfer")

  const INHERIT: ByteString := Ascii("inherit")

  const STYLES: set<ByteString> := {INHERIT, Ascii("hybrid"), Ascii("rounded"), Ascii("chamfered")}

  const NAMES: set<FieldName> := {
    (THEME, Ascii("scheme")), (THEME, Ascii("accent")),
    (TYPOGRAPHY, Ascii("ui_family")), (TYPOGRAPHY, Ascii("ui_size")),
    (TYPOGRAPHY, Ascii("monospace_family")), (TYPOGRAPHY, Ascii("monospace_size")),
    (TYPOGRAPHY, Ascii("title_family")), (TYPOGRAPHY, Ascii("title_size")),
    (TYPOGRAPHY, Ascii("display_family")), (TYPOGRAPHY, Ascii("display_size")),
    (ICONS, Ascii("theme")), (ICONS, Ascii("fallback")), (ICONS, Ascii("cursor")),
    (LAYOUT, SCALE), (SHAPE, STYLE), (SHAPE, SCALE)
  }

  /** Nonempty valid UTF-8 of at most `maximum` bytes, surrounding space dropped. */
  function Identifier(default: string, maximum: nat): Setting {
    Setting(Text(Ascii(default)), true,
          (value: Value) => value.Text? && value.text != [] && Utf8.Decode(value.text).Some? && |value.text| <= maximum)
  }

  function FontSize(default: int): Setting {
    Setting(Integer(default), false, (value: Value) => value.Integer? && 6 <= value.number <= 48)
  }

  function InRange(low: real, high: real): Value -> bool {
    (value: Value) => value.Float? && value.double.Number? && low <= value.double.value <= high
  }

  function Scale(low: real, high: real): Setting {
    Setting(Float(Number(1.0)), false, InRange(low, high))
  }

  function StyleField(): Setting {
    Setting(Text(INHERIT), false, (value: Value) => value.Text? && value.text in STYLES)
  }

  function FieldOf(name: FieldName): Setting {
    if name == (THEME, Ascii("scheme")) then Identifier("holonight-dark", 128)
    else if name == (THEME, Ascii("accent")) then Identifier("blue", 128)
    else if name == (TYPOGRAPHY, Ascii("ui_family")) then Identifier("Inter", 256)
    else if name == (TYPOGRAPHY, Ascii("ui_size")) then FontSize(12)
    else if name == (TYPOGRAPHY, Ascii("monospace_family")) then Identifier("JetBrains Mono", 256)
    else if name == (TYPOGRAPHY, Ascii("monospace_size")) then FontSize(12)
    else if name == (TYPOGRAPHY, Ascii("title_family")) then Identifier("Audiowide", 256)
    else if name == (TYPOGRAPHY, Ascii("title_size")) then FontSize(10)
    else if name == (TYPOGRAPHY, Ascii("display_family")) then Identifier("Rajdhani", 256)
    else if name == (TYPOGRAPHY, Ascii("display_size")) then FontSize(24)
    else if name == (ICONS, Ascii("theme")) then Identifier("HoloNight", 256)
    else if name == (ICONS, Ascii("fallback")) then Identifier("Papirus", 256)
    else if name == (ICONS, Ascii("cursor")) then Identifier("default", 256)
    else if name == (LAYOUT, SCALE) then Scale(0.5, 3.0)
    else if name == (SHAPE, STYLE) then StyleField()
    else Scale(0.25, 4.0)
  }

  const APPEARANCE: Format := Format(
    map name | name in NAMES :: FieldOf(name),
    map[(SHAPE, BASE_RADIUS) := InRange(0.0, 128.0), (SHAPE, BASE_CHAMFER) := InRange(0.0, 128.0)])

  /** A field whose default is valid and normalized. */
  ghost predicate GoodField(field: Setting) {
    && (field.default.Text? || field.default.Integer? || field.default.Float?)
    && Normalized(field, field.default) == field.default && field.accepts(field.default)
  }

  lemma {:induction false} AsciiIsUtf8(s: ByteString)
    requires forall i :: 0 <= i < |s| ==> s[i] < 0x80
    ensures Utf8.Decode(s).Some?
  {
    if s != [] {
      AsciiIsUtf8(s[1..]);
      Utf8.DecodeAsciiHead(s[0], s[1..]);
      assert [s[0]] + s[1..] == s;
    } else {
      assert Utf8.Decode([]).Some?;
    }
  }

  lemma IdentifierIsGood(default: string, maximum: nat)
    requires 0 < |default| <= maximum
    requires !Utf8.IsSpace(Ascii(default)[0]) && !Utf8.IsSpace(Ascii(default)[|default| - 1])
    ensures GoodField(Identifier(default, maximum))
  {
    AsciiIsUtf8(Ascii(default));
    assert Utf8.Trim(Ascii(default)) == Ascii(default);
  }

  lemma FieldIsGood(name: FieldName)
    ensures GoodField(FieldOf(name))
  {
    hide Identifier, Ascii, GoodField, Scale, StyleField;
    IdentifiersAreGood();
    OthersAreGood();
  }

  lemma IdentifiersAreGood()
    ensures GoodField(Identifier("holonight-dark", 128))
    ensures GoodField(Identifier("blue", 128))
    ensures GoodField(Identifier("Inter", 256))
    ensures GoodField(Identifier("JetBrains Mono", 256))
    ensures GoodField(Identifier("Audiowide", 256))
    ensures GoodField(Identifier("Rajdhani", 256))
    ensures GoodField(Identifier("HoloNight", 256))
    ensures GoodField(Identifier("Papirus", 256))
    ensures GoodField(Identifier("default", 256))
  {
    hide GoodField, Identifier;
    IdentifierIsGood("holonight-dark", 128);
    IdentifierIsGood("blue", 128);
    IdentifierIsGood("Inter", 256);
    IdentifierIsGood("JetBrains Mono", 256);
    IdentifierIsGood("Audiowide", 256);
    IdentifierIsGood("Rajdhani", 256);
    IdentifierIsGood("HoloNight", 256);
    IdentifierIsGood("Papirus", 256);
    IdentifierIsGood("default", 256);
  }

  lemma OthersAreGood()
    ensures forall size :: 6 <= size <= 48 ==> GoodField(FontSize(size))
    ensures GoodField(Scale(0.5, 3.0)) && GoodField(Scale(0.25, 4.0)) && GoodField(StyleField())
  {}

  lemma NamesAreFields(name: FieldName)
    requires name in NAMES
    ensures name.0 != VERSION && name != (SHAPE, BASE_RADIUS) && name != (SHAPE, BASE_CHAMFER)
  {
    assert THEME[0] == 116 && TYPOGRAPHY[0] == 116 && ICONS[0] == 105 && LAYOUT[0] == 108 && SHAPE[0] == 115;
    assert VERSION[0] == 118;
    assert SCALE[0] == 115 && STYLE[0] == 115 && BASE_RADIUS[0] == 98 && BASE_CHAMFER[0] == 98;
  }

  lemma FormatOf(fields: map<FieldName, Setting>, optionals: map<FieldName, Value -> bool>)
    requires forall name :: name in fields ==> name.0 != VERSION && name !in optionals && GoodField(fields[name])
    requires forall name :: name in optionals ==> name.0 != VERSION && exists other :: other in fields && other.0 == name.0
    ensures WellFormed(Format(fields, optionals))
  {
    hide Normalized;
  }

  lemma FieldsAreNamed(name: FieldName)
    requires name in APPEARANCE.fields
    ensures name in NAMES && APPEARANCE.fields[name] == FieldOf(name)
  {
    hide FieldOf;
  }

  lemma ShapeHasFields(name: FieldName)
    requires name in APPEARANCE.optionals
    ensures name == (SHAPE, BASE_RADIUS) || name == (SHAPE, BASE_CHAMFER)
    ensures SHAPE != VERSION && (SHAPE, STYLE) in APPEARANCE.fields
  {
    hide FieldOf;
    assert SHAPE[0] == 115 && VERSION[0] == 118;
    assert (SHAPE, STYLE) in NAMES;
  }

  /** The appearance format is well formed, so the results about formats hold of it. */
  lemma AppearanceIsWellFormed()
    ensures WellFormed(APPEARANCE)
  {
    hide *;
    forall name | name in APPEARANCE.fields
      ensures name.0 != VERSION && name !in APPEARANCE.optionals && GoodField(APPEARANCE.fields[name])
    {
      FieldsAreNamed(name);
      NamesAreFields(name);
      FieldIsGood(name);
      if name in APPEARANCE.optionals {
        ShapeHasFields(name);
      }
    }
    forall name | name in APPEARANCE.optionals
      ensures name.0 != VERSION && exists other :: other in APPEARANCE.fields && other.0 == name.0
    {
      ShapeHasFields(name);
      assert (SHAPE, STYLE).0 == name.0;
    }
    FormatOf(APPEARANCE.fields, APPEARANCE.optionals);
  }
}
