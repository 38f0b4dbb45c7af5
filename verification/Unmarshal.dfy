/**
 UnmarshalMap (pkg/utils/unmarshal_map.go): a struct, given as field descriptors and a
 mutable array of values, is filled from a map of strings, guided by field tags.
 */
module Unmarshal {
  import opened Text
  import opened Words

  datatype Width = W8 | W16 | W32 | W64

  datatype Kind = KString | KBool | KInt(width: Width) | KUint(width: Width) | KPtr(elem: Kind) | KOther

  datatype Value = Str(s: string) | Boolean(b: bool) | Int(n: int) | Nil | Ptr(v: Value) | Other

  datatype Field = Field(name: string, tag: string, kind: Kind)

  datatype Error =
    | NilMap
    | FieldNotFound(key: string)
    | InvalidField(key: string, kind: Kind)
    | UnsupportedKind(key: string, kind: Kind)

  // ---- Tags ----

  datatype Tag = Tag(key: string, options: string)

  function ParseTag(tag: string): Tag {
    var i := Find(tag, ',');
    if i < |tag| then Tag(tag[..i], tag[i + 1..]) else Tag(tag, "")
  }

  /** What one option says about `key`: its text when it is named so. */
  function OptionValue(o: string, key: string): Option<string> {
    if o == key then Some("") else
      var i := Find(o, '=');
      if i < |o| && o[..i] == key then Some(o[i + 1..]) else None
  }

  function Scan(options: seq<string>, key: string): Option<string> {
    if options == [] then None
    else if OptionValue(options[0], key).Some? then OptionValue(options[0], key)
    else Scan(options[1..], key)
  }

  function GetOption(options: string, key: string): Option<string> {
    if options == "" then None else Scan(Split(options, ','), key)
  }

  /** tagOptions.Get. */
  method Get(options: string, key: string) returns (r: Option<string>)
    ensures r == GetOption(options, key)
  {
    if |options| == 0 {
      return None;
    }
    var parts := Split(options, ',');
    for i := 0 to |parts|
      invariant Scan(parts, key) == Scan(parts[i..], key)
    {
      var o := parts[i];
      assert parts[i..][1..] == parts[i + 1..];
      if o == key {
        return Some("");
      }
      var equal := Find(o, '=');
      if equal < |o| && o[..equal] == key {
        return Some(o[equal + 1..]);
      }
    }
    return None;
  }

  /** An option answers to a name when it is that name, or that name, "=" and the value. */
  lemma OptionIs(o: string, key: string, v: string)
    ensures OptionValue(o, key) == Some(v) <==>
            (o == key && v == "") || (o != key && '=' !in key && o == key + ['='] + v)
  {
    if o == key + ['='] + v && '=' !in key {
      FindAfter(key, '=', v);
      assert o[..|key|] == key && o[|key| + 1..] == v;
    }
    var i := Find(o, '=');
    if i < |o| && o[..i] == key && o[i + 1..] == v {
      Cut(o, i);
    }
  }

  /** The scan gives the answer of the first option that has one. */
  lemma {:induction false} ScanIs(options: seq<string>, key: string)
    ensures Scan(options, key).None? <==> forall o :: o in options ==> OptionValue(o, key).None?
    ensures forall i :: 0 <= i < |options| && OptionValue(options[i], key).Some?
                        && (forall j :: 0 <= j < i ==> OptionValue(options[j], key).None?) ==>
                        Scan(options, key) == OptionValue(options[i], key)
  {
    if options != [] {
      ScanIs(options[1..], key);
      forall i | 0 < i < |options| && OptionValue(options[i], key).Some?
                 && (forall j :: 0 <= j < i ==> OptionValue(options[j], key).None?)
        ensures Scan(options, key) == OptionValue(options[i], key)
      {
        assert options[1..][i - 1] == options[i];
        assert forall j :: 0 <= j < i - 1 ==> options[1..][j] == options[j + 1];
      }
    }
  }

  /** An option as a programmer writes it. */
  datatype Opt = Flag(name: string) | Setting(name: string, value: string)

  function OptText(o: Opt): string {
    match o
    case Flag(name) => name
    case Setting(name, value) => name + ['='] + value
  }

  function Texts(opts: seq<Opt>): seq<string> {
    if opts == [] then [] else [OptText(opts[0])] + Texts(opts[1..])
  }

  function PrintTag(key: string, opts: seq<Opt>): string { Join([key] + Texts(opts), ',') }

  predicate NameOk(name: string) { name != "" && '=' !in name && ',' !in name }

  predicate OptOk(o: Opt) { NameOk(o.name) && (o.Setting? ==> ',' !in o.value) }

  /** The value of the first option so named; a flag has the empty value. */
  function FirstNamed(opts: seq<Opt>, name: string): Option<string> {
    if opts == [] then None
    else if opts[0].name == name then Some(if opts[0].Flag? then "" else opts[0].value)
    else FirstNamed(opts[1..], name)
  }

  lemma OptionParses(o: Opt, name: string)
    requires OptOk(o) && NameOk(name)
    ensures OptionValue(OptText(o), name) ==
            if o.name == name then Some(if o.Flag? then "" else o.value) else None
    ensures ',' !in OptText(o) && OptText(o) != ""
  {
    if o.Setting? {
      var t := OptText(o);
      FindAfter(o.name, '=', o.value);
      assert t[..|o.name|] == o.name && t[|o.name| + 1..] == o.value;
      assert '=' in t;
    }
  }

  lemma {:induction false} ScanParses(opts: seq<Opt>, name: string)
    requires NameOk(name) && forall o :: o in opts ==> OptOk(o)
    ensures Scan(Texts(opts), name) == FirstNamed(opts, name)
    ensures |Texts(opts)| == |opts| && forall t :: t in Texts(opts) ==> ',' !in t && t != ""
  {
    if opts != [] {
      OptionParses(opts[0], name);
      ScanParses(opts[1..], name);
      assert Texts(opts)[1..] == Texts(opts[1..]);
    }
  }

  /** Tag parsing undoes tag printing: the key comes back, and each option name yields the value
      of the first option so named, later "=" signs included. */
  lemma TagRoundTrip(key: string, opts: seq<Opt>, name: string)
    requires ',' !in key && NameOk(name) && forall o :: o in opts ==> OptOk(o)
    ensures var t := ParseTag(PrintTag(key, opts));
            t.key == key && GetOption(t.options, name) == FirstNamed(opts, name)
  {
    ScanParses(opts, name);
    var texts := Texts(opts);
    if opts != [] {
      var rest := Join(texts, ',');
      assert ([key] + texts)[1..] == texts;
      var tag := PrintTag(key, opts);
      assert tag == key + [','] + rest;
      FindAfter(key, ',', rest);
      assert tag[..|key|] == key && tag[|key| + 1..] == rest;
      SplitJoin(texts, ',');
      assert texts[0] != "";
    } else {
      assert [key] + texts == [key];
    }
  }

  // ---- Numbers ----

  predicate Digit(c: char) { '0' <= c <= '9' }

  function Decimal(n: nat): string {
    var d := [('0' as int + n % 10) as char];
    if n < 10 then d else Decimal(n / 10) + d
  }

  /** A non-empty string of digits, as a number. */
  function Digits(s: string): Option<nat> {
    if s == "" || !Digit(s[|s| - 1]) then None else
      var d := s[|s| - 1] as int - '0' as int;
      if |s| == 1 then Some(d) else
        match Digits(s[..|s| - 1])
        case None => None
        case Some(n) => Some(10 * n + d)
  }

  /** A number is a text of one or more digits and nothing else. */
  lemma {:induction false} DigitsExactly(s: string)
    ensures Digits(s).Some? <==> s != "" && forall i :: 0 <= i < |s| ==> '0' <= s[i] <= '9'
  {
    if |s| > 1 {
      DigitsExactly(s[..|s| - 1]);
    }
  }

  /** Leading zeros do not count; with DecimalParses this gives the value of every text of digits. */
  lemma {:induction false} LeadingZero(s: string)
    requires Digits(s).Some?
    ensures Digits("0" + s) == Digits(s)
  {
    var t, n := "0" + s, |s| - 1;
    assert t[..|t| - 1] == "0" + s[..n] && t[|t| - 1] == s[n];
    if n > 0 {
      LeadingZero(s[..n]);
    } else {
      assert t[..1] == "0" && Digits("0") == Some(0);
    }
  }

  lemma {:induction false} DecimalParses(n: nat)
    ensures Decimal(n) != "" && (forall c :: c in Decimal(n) ==> Digit(c)) && Digits(Decimal(n)) == Some(n)
  {
    var s := Decimal(n);
    if n >= 10 {
      DecimalParses(n / 10);
      assert s[..|s| - 1] == Decimal(n / 10);
    }
  }

  /** strconv.ParseUint(s, 10, 64). */
  function ParseUint(s: string): Option<int> {
    match Digits(s)
    case None => None
    case Some(n) => if n < TWO64 then Some(n) else None
  }

  /** strconv.ParseInt(s, 10, 64): one optional sign. */
  function ParseInt(s: string): Option<int> {
    if s == "" then None else
      var neg := s[0] == '-';
      match ParseUint(if neg || s[0] == '+' then s[1..] else s)
      case None => None
      case Some(n) => if neg then (if n <= TWO63 then Some(-n) else None) else if n < TWO63 then Some(n) else None
  }

  /** strconv.ParseBool. */
  function ParseBool(s: string): Option<bool> {
    if s in {"1", "t", "T", "TRUE", "true", "True"} then Some(true)
    else if s in {"0", "f", "F", "FALSE", "false", "False"} then Some(false)
    else None
  }

  function Signed(n: int): string { if n < 0 then "-" + Decimal(-n) else Decimal(n) }

  lemma SignedParses(n: int)
    ensures ParseInt(Signed(n)) == if -TWO63 <= n < TWO63 then Some(n) else None
    ensures ParseUint(Signed(n)) == if 0 <= n < TWO64 then Some(n) else None
  {
    var m := if n < 0 then -n else n;
    DecimalParses(m);
    var s := Signed(n);
    if n < 0 {
      assert s[1..] == Decimal(m) && s[0] == '-';
      NoDigits(s);
    } else {
      assert s[0] in s;
      assert Digit(s[0]);
    }
  }

  /** A string with a character that is no digit is not a number. */
  lemma {:induction false} NoDigits(s: string)
    requires s != "" && !Digit(s[0])
    ensures Digits(s).None?
  {
    if |s| > 1 && Digit(s[|s| - 1]) {
      NoDigits(s[..|s| - 1]);
    }
  }

  function Half(w: Width): int {
    match w case W8 => 0x80 case W16 => 0x8000 case W32 => 0x8000_0000 case W64 => TWO63
  }

  predicate InRange(k: Kind, n: int) {
    match k
    case KInt(w) => -Half(w) <= n < Half(w)
    case KUint(w) => 0 <= n < 2 * Half(w)
    case _ => false
  }

  // ---- One field ----

  datatype Conversion = Converted(value: Value) | BadText | BadKind

  function ToNumber(k: Kind, n: Option<int>): Conversion {
    if n.Some? && InRange(k, n.value) then Converted(Int(n.value)) else BadText
  }

  function Convert(k: Kind, text: string): Conversion {
    match k
    case KString => Converted(Str(text))
    case KInt(_) => ToNumber(k, ParseInt(text))
    case KUint(_) => ToNumber(k, ParseUint(text))
    case KBool => if ParseBool(text).Some? then Converted(Boolean(ParseBool(text).value)) else BadText
    case KPtr(_) => BadKind
    case KOther => BadKind
  }

  function Zero(k: Kind): Value {
    match k
    case KString => Str("")
    case KBool => Boolean(false)
    case KInt(_) => Int(0)
    case KUint(_) => Int(0)
    case KPtr(_) => Nil
    case KOther => Other
  }

  function KeyOf(f: Field): string {
    var key := ParseTag(f.tag).key; if key == "" then f.name else key
  }

  /** Where a field's text comes from. */
  datatype Source = Use(text: string) | Skip | Missing

  function SourceOf(f: Field, m: map<string, string>): Source {
    var options := ParseTag(f.tag).options;
    if KeyOf(f) in m then Use(m[KeyOf(f)])
    else if GetOption(options, "default").Some? then Use(GetOption(options, "default").value)
    else if GetOption(options, "required").Some? then Missing
    else Skip
  }

  /** The kind the text is converted to: through a nil pointer, its element's. */
  function Target(k: Kind, current: Value): Kind {
    if k.KPtr? && current.Nil? then k.elem else k
  }

  function Wrap(k: Kind, current: Value, v: Value): Value {
    if k.KPtr? && current.Nil? then Ptr(v) else v
  }

  /** What a conversion that fails leaves behind: a nil pointer was already allocated. */
  function Touched(k: Kind, current: Value): Value {
    if k.KPtr? && current.Nil? then Ptr(Zero(k.elem)) else current
  }

  /** The specification of one field: its error, if it has one. */
  function FieldError(f: Field, m: map<string, string>, current: Value): Option<Error> {
    match SourceOf(f, m)
    case Missing => Some(FieldNotFound(KeyOf(f)))
    case Skip => None
    case Use(text) =>
      match Convert(Target(f.kind, current), text)
      case Converted(_) => None
      case BadText => Some(InvalidField(KeyOf(f), Target(f.kind, current)))
      case BadKind => Some(UnsupportedKind(KeyOf(f), Target(f.kind, current)))
  }

  /** The specification of one field: its value afterwards. */
  function FieldValue(f: Field, m: map<string, string>, current: Value): Value {
    match SourceOf(f, m)
    case Missing => current
    case Skip => current
    case Use(text) =>
      match Convert(Target(f.kind, current), text)
      case Converted(v) => Wrap(f.kind, current, v)
      case BadText => Touched(f.kind, current)
      case BadKind => Touched(f.kind, current)
  }

  // ---- The loop ----

  /** One turn of the loop body. */
  method SetField(f: Field, m: map<string, string>, a: array<Value>, i: nat) returns (r: Option<Error>)
    requires i < a.Length
    modifies a
    ensures r == FieldError(f, m, old(a[i])) && a[i] == FieldValue(f, m, old(a[i]))
    ensures forall j :: 0 <= j < a.Length && j != i ==> a[j] == old(a[j])
  {
    var tag := ParseTag(f.tag);
    var key := if |tag.key| == 0 then f.name else tag.key;
    var required := Get(tag.options, "required");
    var default := Get(tag.options, "default");
    var value: string;
    if key in m {
      value := m[key];
    } else {
      if required.Some? && default.None? {
        return Some(FieldNotFound(key));
      }
      if default.None? {
        return None;
      }
      value := default.value;
    }
    var kind := f.kind;
    var through := kind.KPtr? && a[i].Nil?;
    if through {
      kind := kind.elem;
      a[i] := Ptr(Zero(kind));
    }
    match Convert(kind, value) {
      case Converted(v) =>
        a[i] := if through then Ptr(v) else v;
        return None;
      case BadText => return Some(InvalidField(key, kind));
      case BadKind => return Some(UnsupportedKind(key, kind));
    }
  }

  /** On success every field has its specified value; on failure the error is that of the first
      failing field, the fields before it are set and the ones after it are untouched. */
  method UnmarshalMap(m: Option<map<string, string>>, fields: seq<Field>, a: array<Value>) returns (r: Option<Error>)
    requires |fields| == a.Length
    modifies a
    ensures m.None? ==> r == Some(NilMap) && a[..] == old(a[..])
    ensures m.Some? && r.None? ==>
              forall i :: 0 <= i < a.Length ==>
                FieldError(fields[i], m.value, old(a[i])).None? && a[i] == FieldValue(fields[i], m.value, old(a[i]))
    ensures m.Some? && r.Some? ==>
              exists k :: 0 <= k < a.Length && FieldError(fields[k], m.value, old(a[k])) == r
                && (forall i :: 0 <= i < k ==> FieldError(fields[i], m.value, old(a[i])).None?)
                && (forall i :: 0 <= i <= k ==> a[i] == FieldValue(fields[i], m.value, old(a[i])))
                && (forall i :: k < i < a.Length ==> a[i] == old(a[i]))
                && (a[k] == old(a[k])
                    || (fields[k].kind.KPtr? && old(a[k]) == Nil && a[k] == Ptr(Zero(fields[k].kind.elem))))
  {
    if m.None? {
      return Some(NilMap);
    }
    for n := 0 to |fields|
      invariant forall i :: 0 <= i < n ==> FieldError(fields[i], m.value, old(a[i])).None?
      invariant forall i :: 0 <= i < n ==> a[i] == FieldValue(fields[i], m.value, old(a[i]))
      invariant forall i :: n <= i < a.Length ==> a[i] == old(a[i])
    {
      r := SetField(fields[n], m.value, a, n);
      if r.Some? {
        return;
      }
    }
    return None;
  }

  // ---- Properties of the specification ----

  /** What the tag options mean, in the documentation's terms: the map's value comes first, then
      the default, and a required field without either is missing. */
  lemma TaggedSource(name: string, key: string, opts: seq<Opt>, kind: Kind, m: map<string, string>)
    requires ',' !in key && forall o :: o in opts ==> OptOk(o)
    ensures var f := Field(name, PrintTag(key, opts), kind);
            var k := if key == "" then name else key;
            && KeyOf(f) == k
            && SourceOf(f, m) ==
                 if k in m then Use(m[k])
                 else if FirstNamed(opts, "default").Some? then Use(FirstNamed(opts, "default").value)
                 else if FirstNamed(opts, "required").Some? then Missing
                 else Skip
  {
    assert NameOk("default") && NameOk("required");
    TagRoundTrip(key, opts, "default");
    TagRoundTrip(key, opts, "required");
  }

  /** A value a field of this kind can hold, strings, booleans and integers only; pointers one deep. */
  predicate Holds(k: Kind, v: Value) {
    match k
    case KString => v.Str?
    case KBool => v.Boolean?
    case KInt(_) => v.Int? && InRange(k, v.n)
    case KUint(_) => v.Int? && InRange(k, v.n)
    case KPtr(elem) => v.Ptr? && !elem.KPtr? && Holds(elem, v.v)
    case KOther => false
  }

  function Print(v: Value): string {
    match v
    case Str(s) => s
    case Boolean(b) => if b then "true" else "false"
    case Int(n) => Signed(n)
    case Ptr(v') => Print(v')
    case Nil => ""
    case Other => ""
  }

  lemma ConvertPrint(k: Kind, v: Value)
    requires Holds(k, v) && !k.KPtr?
    ensures Convert(k, Print(v)) == Converted(v)
  {
    if v.Int? {
      SignedParses(v.n);
    }
  }

  /** The text is the number: digits, and for signed fields also digits behind one sign. */
  predicate Denotes(text: string, n: int, signed: bool) {
    || (n >= 0 && Digits(text) == Some(n))
    || (signed && text != "" && text[0] == '+' && n >= 0 && Digits(text[1..]) == Some(n))
    || (signed && text != "" && text[0] == '-' && n <= 0 && Digits(text[1..]) == Some(-n))
  }

  /** Which texts an integer field takes, and as what: exactly those that denote a number in its
      range; every other text is an error. */
  lemma IntegerExactly(k: Kind, text: string, n: int)
    requires k.KInt? || k.KUint?
    ensures Convert(k, text) == Converted(Int(n)) <==> InRange(k, n) && Denotes(text, n, k.KInt?)
    ensures Convert(k, text) == BadText || (Convert(k, text).Converted? && Convert(k, text).value.Int?)
  {
    if text != "" && (text[0] == '+' || text[0] == '-') {
      NoDigits(text);
    }
  }

  /** The ranges of the integer kinds. */
  lemma Ranges(n: int)
    ensures InRange(KInt(W8), n) <==> -128 <= n <= 127
    ensures InRange(KInt(W16), n) <==> -32768 <= n <= 32767
    ensures InRange(KInt(W32), n) <==> -2147483648 <= n <= 2147483647
    ensures InRange(KInt(W64), n) <==> -9223372036854775808 <= n <= 9223372036854775807
    ensures InRange(KUint(W8), n) <==> 0 <= n <= 255
    ensures InRange(KUint(W16), n) <==> 0 <= n <= 65535
    ensures InRange(KUint(W32), n) <==> 0 <= n <= 4294967295
    ensures InRange(KUint(W64), n) <==> 0 <= n <= 18446744073709551615
  {
  }

  /** A text with anything but digits behind an optional sign is an error, whatever the width. */
  lemma MalformedNumber(k: Kind, text: string)
    requires k.KInt? || k.KUint?
    requires exists i :: 0 <= i < |text| && !('0' <= text[i] <= '9') && (i == 0 ==> k.KUint? || text[0] !in {'+', '-'})
    ensures Convert(k, text) == BadText
  {
    var i :| 0 <= i < |text| && !('0' <= text[i] <= '9') && (i == 0 ==> k.KUint? || text[0] !in {'+', '-'});
    DigitsExactly(text);
    if i > 0 {
      assert text[1..][i - 1] == text[i];
      DigitsExactly(text[1..]);
    }
  }

  /** The twelve texts a boolean field takes. */
  lemma BooleanExactly(text: string)
    ensures var r := Convert(KBool, text);
            if text == "1" || text == "t" || text == "T" || text == "TRUE" || text == "true" || text == "True"
            then r == Converted(Boolean(true))
            else if text == "0" || text == "f" || text == "F" || text == "FALSE" || text == "false" || text == "False"
            then r == Converted(Boolean(false))
            else r == BadText
  {
  }

  /** What a text does to a field: a string takes it as it is; a pointer that is not nil and a kind
      outside the list are unsupported and keep their value; any other kind takes what the text
      converts to, or keeps its value. */
  lemma FieldExactly(f: Field, m: map<string, string>, current: Value, text: string)
    requires SourceOf(f, m) == Use(text)
    ensures f.kind == KString ==>
              FieldError(f, m, current).None? && FieldValue(f, m, current) == Str(text)
    ensures f.kind == KOther || (f.kind.KPtr? && current != Nil) ==>
              && FieldError(f, m, current) == Some(UnsupportedKind(KeyOf(f), f.kind))
              && FieldValue(f, m, current) == current
    ensures f.kind.KInt? || f.kind.KUint? || f.kind.KBool? ==>
              match Convert(f.kind, text)
              case Converted(v) => FieldError(f, m, current).None? && FieldValue(f, m, current) == v
              case _ => && FieldError(f, m, current) == Some(InvalidField(KeyOf(f), f.kind))
                        && FieldValue(f, m, current) == current
  {
  }

  /** A nil pointer is allocated, and its element treated as a field of its kind. */
  lemma PointerExactly(f: Field, m: map<string, string>, text: string)
    requires SourceOf(f, m) == Use(text) && f.kind.KPtr?
    ensures !f.kind.elem.KPtr? ==>
              var e := f.(kind := f.kind.elem);
              && FieldError(f, m, Nil) == FieldError(e, m, Zero(f.kind.elem))
              && FieldValue(f, m, Nil) == Ptr(FieldValue(e, m, Zero(f.kind.elem)))
    ensures f.kind.elem.KPtr? ==>
              && FieldError(f, m, Nil) == Some(UnsupportedKind(KeyOf(f), f.kind.elem))
              && FieldValue(f, m, Nil) == Ptr(Nil)
  {
    var e := f.(kind := f.kind.elem);
    assert SourceOf(e, m) == SourceOf(f, m) && KeyOf(e) == KeyOf(f);
  }

  /** A text that does not fit leaves a nil pointer allocated, with its element at rest. */
  lemma AllocatedAtRest(f: Field, m: map<string, string>, text: string)
    requires SourceOf(f, m) == Use(text) && f.kind.KPtr? && Convert(f.kind.elem, text) == BadText
    ensures FieldError(f, m, Nil) == Some(InvalidField(KeyOf(f), f.kind.elem))
    ensures FieldValue(f, m, Nil) == Ptr(if f.kind.elem.KBool? then Boolean(false) else Int(0))
  {
  }

  /** Every decimal outside a field's width is rejected, and every one inside is accepted. */
  lemma WidthIsEnforced(k: Kind, n: int)
    requires k.KInt? || k.KUint?
    ensures Convert(k, Signed(n)) == if InRange(k, n) then Converted(Int(n)) else BadText
  {
    SignedParses(n);
  }

  function PrintMap(fields: seq<Field>, values: seq<Value>): map<string, string>
    requires |fields| == |values|
  {
    if fields == [] then map[] else PrintMap(fields[1..], values[1..])[KeyOf(fields[0]) := Print(values[0])]
  }

  lemma {:induction false} PrintMapAt(fields: seq<Field>, values: seq<Value>, i: nat)
    requires |fields| == |values| && i < |fields|
    requires forall p, q :: 0 <= p < q < |fields| ==> KeyOf(fields[p]) != KeyOf(fields[q])
    ensures KeyOf(fields[i]) in PrintMap(fields, values)
    ensures PrintMap(fields, values)[KeyOf(fields[i])] == Print(values[i])
  {
    if i > 0 {
      PrintMapAt(fields[1..], values[1..], i - 1);
      assert KeyOf(fields[0]) != KeyOf(fields[i]);
    }
  }

  lemma FieldRoundTrip(fields: seq<Field>, values: seq<Value>, before: Value, i: nat)
    requires |fields| == |values| && i < |fields|
    requires forall p, q :: 0 <= p < q < |fields| ==> KeyOf(fields[p]) != KeyOf(fields[q])
    requires Holds(fields[i].kind, values[i]) && (fields[i].kind.KPtr? ==> before.Nil?)
    ensures FieldError(fields[i], PrintMap(fields, values), before).None?
    ensures FieldValue(fields[i], PrintMap(fields, values), before) == values[i]
  {
    PrintMapAt(fields, values, i);
    var k, v := fields[i].kind, values[i];
    if k.KPtr? {
      ConvertPrint(k.elem, v.v);
    } else {
      ConvertPrint(k, v);
    }
  }

  /** Printing a struct to a map and unmarshalling the map gives the struct back. */
  method RoundTrip(fields: seq<Field>, values: seq<Value>, a: array<Value>) returns (r: Option<Error>)
    requires |fields| == |values| == a.Length
    requires forall p, q :: 0 <= p < q < |fields| ==> KeyOf(fields[p]) != KeyOf(fields[q])
    requires forall i :: 0 <= i < |fields| ==> Holds(fields[i].kind, values[i]) && (fields[i].kind.KPtr? ==> a[i].Nil?)
    modifies a
    ensures r.None? && a[..] == values
  {
    ghost var before := a[..];
    forall i | 0 <= i < |fields|
      ensures FieldError(fields[i], PrintMap(fields, values), before[i]).None?
      ensures FieldValue(fields[i], PrintMap(fields, values), before[i]) == values[i]
    {
      FieldRoundTrip(fields, values, before[i], i);
    }
    r := UnmarshalMap(Some(PrintMap(fields, values)), fields, a);
  }
}
