/** The INDI XML codec over an abstract XML tree (src/indikit/protocol/xml.py): what the
    printers put in a node, what the parsers make of it, and that the two commute with a
    client's merge. Tags and attributes are named, not spelled. */
module Codec {
  import opened Wire
  import opened Merge
  import Digits
  import Printf
  import Sexagesimal

  datatype Mode = Def | Set | New

  datatype Tag =
    | VectorTag(mode: Mode, kind: Kind)
    | ElementTag(full: bool, kind: Kind)
    | GetPropertiesTag
    | DelPropertyTag
    | MessageTag
    | EnableBlobTag
    | OtherTag

  datatype Attribute =
    | Device | Name | Label | Group | State | Perm | Rule | Timeout | Timestamp | Note | Version
    | Format | Minimum | Maximum | Step | Size | EncLen

  datatype Node = Node(tag: Tag, attrs: map<Attribute, string>, text: string, children: seq<Node>)

  /** The library conversions the codec calls: the text of a float and of a time, the
      printf rendering of a number, base64 and zlib. */
  datatype Library = Library(
    showReal: real -> string, showTime: int -> string, readTime: string -> Option<int>,
    render: (real, string) -> string,
    encode: Bytes -> string, decode: string -> Option<Bytes>, inflate: Bytes -> Option<Bytes>)

  predicate NoSpaces(s: string) {
    forall i :: 0 <= i < |s| ==> !Sexagesimal.IsSpace(s[i])
  }

  /** A time's text reads as the time, and base64 decodes to what was encoded, is one
      unbroken line, and is empty for nothing alone (section 4 of RFC 4648). */
  ghost predicate Faithful(lib: Library) {
    && (forall t :: TimeSurvives(lib, t))
    && forall b :: PayloadSurvives(lib, b)
  }

  /** The text of a number reads as the number, as a double's does. */
  predicate RealSurvives(lib: Library, x: Option<real>) {
    x.Some? ==> Sexagesimal.Float(Sexagesimal.Strip(lib.showReal(x.value))) == Sexagesimal.Value(x.value)
  }

  predicate TimeSurvives(lib: Library, t: int) {
    lib.showTime(t) != "" && lib.readTime(lib.showTime(t)) == Some(t)
  }

  predicate PayloadSurvives(lib: Library, b: Bytes) {
    lib.decode(lib.encode(b)) == Some(b) && NoSpaces(lib.encode(b)) && (lib.encode(b) == "" <==> b == [])
  }

  // ------------------------------------------------------------------------ //
  // Tokens, which are read with any white space around them                    //
  // ------------------------------------------------------------------------ //

  function ReadState(text: string): Option<IPState> {
    var s := Sexagesimal.Strip(text);
    if s == "Idle" then Some(Idle) else if s == "Ok" then Some(Ok)
    else if s == "Busy" then Some(Busy) else if s == "Alert" then Some(Alert) else None
  }

  function ReadSwitch(text: string): Option<ISState> {
    var s := Sexagesimal.Strip(text);
    if s == "On" then Some(On) else if s == "Off" then Some(Off) else None
  }

  function PermText(p: IPerm): string {
    match p
    case RO => "ro"
    case WO => "wo"
    case RW => "rw"
  }

  function ReadPerm(text: string): Option<IPerm> {
    var s := Sexagesimal.Strip(text);
    if s == "ro" then Some(RO) else if s == "wo" then Some(WO) else if s == "rw" then Some(RW) else None
  }

  function RuleText(r: ISRule): string {
    match r
    case OneOfMany => "OneOfMany"
    case AtMostOne => "AtMostOne"
    case AnyOfMany => "AnyOfMany"
  }

  function ReadRule(text: string): Option<ISRule> {
    var s := Sexagesimal.Strip(text);
    if s == "OneOfMany" then Some(OneOfMany) else if s == "AtMostOne" then Some(AtMostOne)
    else if s == "AnyOfMany" then Some(AnyOfMany) else None
  }

  function PolicyText(p: BlobPolicy): string {
    match p
    case Never => "Never"
    case Also => "Also"
    case Only => "Only"
  }

  function ReadPolicy(text: string): Option<BlobPolicy> {
    var s := Sexagesimal.Strip(text);
    if s == "Never" then Some(Never) else if s == "Also" then Some(Also) else if s == "Only" then Some(Only) else None
  }

  function ShowInt(n: int): string {
    if n < 0 then "-" + Digits.ToText(-n) else Digits.ToText(n)
  }

  /** `_optint`. */
  function ReadInt(text: string): Option<int> {
    var s := Sexagesimal.Strip(text);
    var signed := s != "" && (s[0] == '-' || s[0] == '+');
    var digits := if signed then s[1..] else s;
    if digits == "" || !Digits.IsDigits(digits) then None
    else Some(if signed && s[0] == '-' then -(Digits.Val(digits) as int) else Digits.Val(digits))
  }

  // ------------------------------------------------------------------------ //
  // Printing                                                                  //
  // ------------------------------------------------------------------------ //

  type Attributes = map<Attribute, string>

  /** `_set`: an absent value writes no attribute. */
  function With(attrs: Attributes, key: Attribute, value: Option<string>): Attributes {
    if value.Some? then attrs[key := value.value] else attrs
  }

  function RealText(x: Option<real>, lib: Library): Option<string> {
    if x.Some? then Some(lib.showReal(x.value)) else None
  }

  function TimeText(t: Option<int>, lib: Library): Option<string> {
    if t.Some? then Some(lib.showTime(t.value)) else None
  }

  /** `require_declared_size`: a compressed payload must say how long it is inflated. */
  predicate Describable(e: Element) {
    e.Blob? && e.data.Some? && Compressed(e.encoding) ==> e.size.Some?
  }

  /** `_element_xml`: a full definition, or a name and a value. */
  function ElementNode(e: Element, full: bool, lib: Library): Option<Node> {
    var named: Attributes := map[Name := e.name];
    var titled := if full then With(named, Label, e.caption) else named;
    match e
    case Number(_, _, format, min, max, step, x) =>
      var attrs := if !full then titled
                   else With(With(With(titled[Format := format], Minimum, RealText(min, lib)),
                                  Maximum, RealText(max, lib)), Step, RealText(step, lib));
      Some(Node(ElementTag(full, NumberKind), attrs, lib.render(x, format), []))
    case Text(_, _, text) => Some(Node(ElementTag(full, TextKind), titled, text, []))
    case Switch(_, _, s) => Some(Node(ElementTag(full, SwitchKind), titled, SwitchText(s), []))
    case Light(_, _, s) => Some(Node(ElementTag(full, LightKind), titled, StateText(s), []))
    case Blob(_, _, encoding, size, data) =>
      if !Describable(e) then None
      else
        var formatted := With(titled, Format, encoding);
        if full || data.None? then Some(Node(ElementTag(full, BlobKind), formatted, "", []))
        else
          var encoded := lib.encode(data.value);
          var attrs := formatted[Size := ShowInt(if size.Some? then size.value else |data.value|)]
                                [EncLen := ShowInt(|encoded|)];
          Some(Node(ElementTag(false, BlobKind), attrs, encoded, []))
  }

  /** The attributes of a vector's node. */
  function VectorAttributes(v: Vector, mode: Mode, lib: Library): Attributes {
    match mode
    case Def => Dated(Ruled(Stated(Titled(v), v), v), v, true, lib)
    case Set => Dated(Stated(map[Device := v.device, Name := v.name], v), v, true, lib)
    case New => Dated(map[Device := v.device, Name := v.name], v, false, lib)
  }

  function Titled(v: Vector): Attributes {
    With(With(map[Device := v.device, Name := v.name], Label, v.caption), Group, v.group)
  }

  function Stated(attrs: Attributes, v: Vector): Attributes {
    attrs[State := StateText(v.state)]
  }

  /** A permission unless the vector is of lights, a rule if it is of switches. */
  function Ruled(attrs: Attributes, v: Vector): Attributes {
    var permitted := if v.kind == LightKind || v.perm.None? then attrs else attrs[Perm := PermText(v.perm.value)];
    if v.kind != SwitchKind || v.rule.None? then permitted else permitted[Rule := RuleText(v.rule.value)]
  }

  function Dated(attrs: Attributes, v: Vector, timed: bool, lib: Library): Attributes {
    var limited := if timed then With(attrs, Timeout, RealText(v.timeout, lib)) else attrs;
    With(With(limited, Timestamp, TimeText(v.timestamp, lib)), Note, v.message)
  }

  function ElementNodes(elements: seq<Element>, full: bool, lib: Library): Option<seq<Node>> {
    if elements == [] then Some([])
    else
      var last := |elements| - 1;
      match (ElementNodes(elements[..last], full, lib), ElementNode(elements[last], full, lib))
      case (Some(nodes), Some(node)) => Some(nodes + [node])
      case _ => None
  }

  /** The node of a vector; none if one of its elements cannot be described. */
  function VectorNode(v: Vector, mode: Mode, lib: Library): Option<Node> {
    match ElementNodes(v.elements, mode == Def, lib)
    case Some(nodes) => Some(Node(VectorTag(mode, v.kind), VectorAttributes(v, mode, lib), "", nodes))
    case None => None
  }

  /** `_vector_xml`: the node filled in, its children appended one by one; nothing if one
      of them cannot be described. */
  method VectorXml(v: Vector, mode: Mode, lib: Library) returns (node: Option<Node>)
    ensures node == VectorNode(v, mode, lib)
  {
    var children: seq<Node> := [];
    var i := 0;
    while i < |v.elements|
      invariant 0 <= i <= |v.elements|
      invariant ElementNodes(v.elements[..i], mode == Def, lib) == Some(children)
    {
      assert v.elements[..i + 1][..i] == v.elements[..i];
      match ElementNode(v.elements[i], mode == Def, lib) {
        case None =>
          NoneFrom(v.elements, i + 1, mode == Def, lib);
          return None;
        case Some(child) => children := children + [child];
      }
      i := i + 1;
    }
    assert v.elements[..i] == v.elements;
    node := Some(Node(VectorTag(mode, v.kind), VectorAttributes(v, mode, lib), "", children));
  }

  lemma {:induction false} NoneFrom(elements: seq<Element>, k: nat, full: bool, lib: Library)
    requires k <= |elements| && ElementNodes(elements[..k], full, lib).None?
    ensures ElementNodes(elements, full, lib).None?
    decreases |elements| - k
  {
    if k < |elements| {
      assert elements[..k + 1][..k] == elements[..k];
      NoneFrom(elements, k + 1, full, lib);
    } else {
      assert elements[..k] == elements;
    }
  }

  // ------------------------------------------------------------------------ //
  // Parsing                                                                   //
  // ------------------------------------------------------------------------ //

  function At(attrs: Attributes, key: Attribute): Option<string> {
    if key in attrs then Some(attrs[key]) else None
  }

  function Get(node: Node, key: Attribute): Option<string> {
    At(node.attrs, key)
  }

  /** `_optfloat`. */
  function ReadReal(text: Option<string>): Option<real> {
    if text.None? then None
    else
      match Sexagesimal.Float(Sexagesimal.Strip(text.value))
      case Value(x) => Some(x)
      case Refused => None
  }

  /** `_optts`. */
  function ReadTime(text: Option<string>, lib: Library): Option<int> {
    if text.None? || text.value == "" then None else lib.readTime(text.value)
  }

  function WithoutSpaces(s: string): string {
    if s == "" then "" else (if Sexagesimal.IsSpace(s[0]) then "" else [s[0]]) + WithoutSpaces(s[1..])
  }

  /** `inflate_blob`: a `.z` payload becomes the inflated bytes, with the length and the
      format that go with them. */
  function Inflated(e: Element, lib: Library): Option<Element>
    requires e.Blob?
  {
    if e.data.None? || !Compressed(e.encoding) then Some(e)
    else
      match lib.inflate(e.data.value)
      case None => None
      case Some(bytes) =>
        var kept := e.encoding.value[..|e.encoding.value| - 2];
        Some(e.(data := Some(bytes), size := Some(|bytes|), encoding := if kept == "" then None else Some(kept)))
  }

  /** `_element_from_xml`. */
  function ElementOf(node: Node, kind: Kind, lib: Library): Option<Element> {
    var name := if Name in node.attrs then node.attrs[Name] else "";
    var caption := Get(node, Label);
    var text := Sexagesimal.Strip(node.text);
    match kind
    case NumberKind =>
      var format := if Format in node.attrs && node.attrs[Format] != "" then node.attrs[Format] else "%g";
      (match (if text == "" then Sexagesimal.Value(0.0) else Sexagesimal.Parsed(text))
       case Refused => None
       case Value(x) =>
         Some(Number(name, caption, format, ReadReal(Get(node, Minimum)), ReadReal(Get(node, Maximum)),
                     ReadReal(Get(node, Step)), x)))
    case TextKind => Some(Text(name, caption, text))
    case SwitchKind =>
      (match (if text == "" then Some(Off) else ReadSwitch(text))
       case None => None
       case Some(s) => Some(Switch(name, caption, s)))
    case LightKind =>
      (match (if text == "" then Some(Idle) else ReadState(text))
       case None => None
       case Some(s) => Some(Light(name, caption, s)))
    case BlobKind =>
      var size := if Size in node.attrs then ReadInt(node.attrs[Size]) else None;
      if text == "" then Inflated(Blob(name, caption, Get(node, Format), size, None), lib)
      else
        (match lib.decode(WithoutSpaces(text))
         case None => None
         case Some(bytes) => Inflated(Blob(name, caption, Get(node, Format), size, Some(bytes)), lib))
  }

  function ElementsOf(nodes: seq<Node>, kind: Kind, lib: Library): Option<seq<Element>> {
    if nodes == [] then Some([])
    else
      var last := |nodes| - 1;
      match (ElementsOf(nodes[..last], kind, lib), ElementOf(nodes[last], kind, lib))
      case (Some(elements), Some(element)) => Some(elements + [element])
      case _ => None
  }

  /** A token that may be absent or empty, which reads as a default. */
  function Token<T>(text: Option<string>, read: string -> Option<T>, default: T): Option<T> {
    if text.None? || text.value == "" then Some(default) else read(text.value)
  }

  /** `_vector_from_xml`. */
  function VectorOf(node: Node, kind: Kind, lib: Library): Option<Vector> {
    var device, name := Get(node, Device), Get(node, Name);
    var state := Token(Get(node, State), ReadState, Idle);
    var perm := Token(Get(node, Perm), ReadPerm, RW);
    var rule := if kind == SwitchKind then Token(Get(node, Rule), ReadRule, AnyOfMany) else Some(AnyOfMany);
    var elements := ElementsOf(node.children, kind, lib);
    if device.None? || device.value == "" || name.None? || name.value == "" then None
    else if state.None? || perm.None? || rule.None? || elements.None? then None
    else
      Some(Vector(device.value, name.value, Get(node, Label), Get(node, Group), kind,
                  if kind == LightKind then None else perm,
                  if kind == SwitchKind then rule else None,
                  state.value, ReadReal(Get(node, Timeout)), ReadTime(Get(node, Timestamp), lib),
                  Get(node, Note), elements.value))
  }

  /** `message_from_xml`: a message, nothing for a tag it does not know, or a refusal. */
  datatype Outcome = Ignored | Refused | Parsed(msg: IndiMessage)

  function MessageOf(node: Node, lib: Library): Outcome {
    match node.tag
    case VectorTag(mode, kind) =>
      (match VectorOf(node, kind, lib)
       case None => Refused
       case Some(v) =>
         match mode
         case Def => Parsed(DefVector(v))
         case Set => Parsed(SetVector(v, State in node.attrs))
         case New => Parsed(NewVector(v)))
    case GetPropertiesTag =>
      Parsed(GetProperties(if Version in node.attrs && node.attrs[Version] != "" then node.attrs[Version] else "1.7",
                           Get(node, Device), Get(node, Name)))
    case DelPropertyTag =>
      if Get(node, Device).None? || node.attrs[Device] == "" then Refused
      else Parsed(DelProperty(node.attrs[Device], Get(node, Name), ReadTime(Get(node, Timestamp), lib), Get(node, Note)))
    case MessageTag =>
      Parsed(Message(Get(node, Device), ReadTime(Get(node, Timestamp), lib),
                                 if Note in node.attrs then node.attrs[Note] else ""))
    case EnableBlobTag =>
      if Get(node, Device).None? || node.attrs[Device] == "" then Refused
      else
        var text := Sexagesimal.Strip(node.text);
        (match (if text == "" then Some(Also) else ReadPolicy(text))
         case None => Refused
         case Some(policy) => Parsed(EnableBlob(node.attrs[Device], Get(node, Name), policy)))
    case _ => Ignored
  }

  /** `_message_xml`. */
  function MessageNode(msg: IndiMessage, lib: Library): Option<Node> {
    match msg
    case DefVector(v) => VectorNode(v, Def, lib)
    case SetVector(v, _) => VectorNode(v, Set, lib)
    case NewVector(v) => VectorNode(v, New, lib)
    case GetProperties(version, device, name) =>
      Some(Node(GetPropertiesTag, With(With(map[Version := version], Device, device), Name, name), "", []))
    case DelProperty(device, name, time, why) =>
      Some(Node(DelPropertyTag,
                With(With(With(map[Device := device], Name, name), Timestamp, TimeText(time, lib)), Note, why), "", []))
    case Message(device, time, note) =>
      var attrs: Attributes := map[];
      Some(Node(MessageTag, With(With(attrs, Device, device), Timestamp, TimeText(time, lib))[Note := note], "", []))
    case EnableBlob(device, name, policy) =>
      Some(Node(EnableBlobTag, With(map[Device := device], Name, name), PolicyText(policy), []))
  }

  // ------------------------------------------------------------------------ //
  // What survives the wire                                                    //
  // ------------------------------------------------------------------------ //

  lemma {:induction false} StrippedEnds(s: string)
    requires s == "" || (!Sexagesimal.IsSpace(s[0]) && !Sexagesimal.IsSpace(s[|s| - 1]))
    ensures Sexagesimal.Strip(s) == s
  {
  }

  lemma {:induction false} RightStripEnds(s: string)
    requires s != "" && !Sexagesimal.IsSpace(s[0])
    ensures Sexagesimal.RightStrip(s) != "" && Sexagesimal.RightStrip(s)[0] == s[0]
    ensures !Sexagesimal.IsSpace(Sexagesimal.RightStrip(s)[|Sexagesimal.RightStrip(s)| - 1])
  {
    if Sexagesimal.IsSpace(s[|s| - 1]) {
      RightStripEnds(s[..|s| - 1]);
    }
  }

  lemma {:induction false} LeftStripEnds(s: string)
    ensures Sexagesimal.LeftStrip(s) == "" || !Sexagesimal.IsSpace(Sexagesimal.LeftStrip(s)[0])
  {
    if s != "" && Sexagesimal.IsSpace(s[0]) {
      LeftStripEnds(s[1..]);
    }
  }

  /** Stripping twice strips once. */
  lemma StripOnce(s: string)
    ensures Sexagesimal.Strip(Sexagesimal.Strip(s)) == Sexagesimal.Strip(s)
  {
    LeftStripEnds(s);
    if Sexagesimal.LeftStrip(s) != "" {
      RightStripEnds(Sexagesimal.LeftStrip(s));
    }
    StrippedEnds(Sexagesimal.Strip(s));
  }

  /** The number a client reads of the text a number is printed as. */
  function NumberOf(x: real, format: string, lib: Library): Sexagesimal.Parsing {
    var text := Sexagesimal.Strip(lib.render(x, format));
    if text == "" then Sexagesimal.Value(0.0) else Sexagesimal.Parsed(text)
  }

  /** An element as the wire's precision leaves it. */
  function Settled(e: Element, lib: Library): Element {
    if e.Number? && NumberOf(e.number, e.format, lib).Value?
    then e.(number := NumberOf(e.number, e.format, lib).value) else e
  }

  function SettledAll(elements: seq<Element>, lib: Library): seq<Element> {
    seq(|elements|, i requires 0 <= i < |elements| => Settled(elements[i], lib))
  }

  function SettledVector(v: Vector, lib: Library): Vector {
    v.(elements := SettledAll(v.elements, lib))
  }

  /** What an element must be for its value to survive: a format that is not empty and
      renders text that reads, text without white space around it, and a payload that is
      absent, or there with its size and not compressed. */
  predicate Normal(e: Element, lib: Library) {
    match e
    case Number(_, _, format, _, _, _, x) => format != "" && NumberOf(x, format, lib).Value?
    case Text(_, _, text) => Sexagesimal.Strip(text) == text
    case Blob(_, _, encoding, size, data) =>
      if data.None? then size.None? else data.value != [] && size.Some? && !Compressed(encoding)
    case _ => true
  }

  /** What the rest of an element must be for its definition to survive: no payload, and
      bounds whose text reads as they are. */
  predicate Definable(e: Element, lib: Library) {
    match e
    case Number(_, _, _, min, max, step, _) =>
      RealSurvives(lib, min) && RealSurvives(lib, max) && RealSurvives(lib, step)
    case Blob(_, _, _, size, data) => data.None? && size.None?
    case _ => true
  }

  /** A vector of the model: named, of one kind, with a permission unless it is of lights
      and a rule if it is of switches, and a timeout whose text reads as it is. */
  predicate NormalVector(v: Vector, lib: Library) {
    && v.device != "" && v.name != "" && RealSurvives(lib, v.timeout)
    && (v.perm.None? <==> v.kind == LightKind) && (v.rule.Some? <==> v.kind == SwitchKind)
    && forall i :: 0 <= i < |v.elements| ==> v.elements[i].Kind() == v.kind && Normal(v.elements[i], lib)
  }

  lemma StateReads(s: IPState)
    ensures StateText(s) != "" && Sexagesimal.Strip(StateText(s)) == StateText(s) && ReadState(StateText(s)) == Some(s)
  {
    StrippedEnds(StateText(s));
  }

  lemma SwitchReads(s: ISState)
    ensures SwitchText(s) != "" && Sexagesimal.Strip(SwitchText(s)) == SwitchText(s) && ReadSwitch(SwitchText(s)) == Some(s)
  {
    StrippedEnds(SwitchText(s));
  }

  lemma PermReads(p: IPerm)
    ensures PermText(p) != "" && ReadPerm(PermText(p)) == Some(p)
  {
    StrippedEnds(PermText(p));
  }

  lemma RuleReads(r: ISRule)
    ensures RuleText(r) != "" && ReadRule(RuleText(r)) == Some(r)
  {
    StrippedEnds(RuleText(r));
  }

  lemma PolicyReads(p: BlobPolicy)
    ensures PolicyText(p) != "" && Sexagesimal.Strip(PolicyText(p)) == PolicyText(p) && ReadPolicy(PolicyText(p)) == Some(p)
  {
    StrippedEnds(PolicyText(p));
  }

  lemma RealReads(x: Option<real>, lib: Library)
    requires RealSurvives(lib, x)
    ensures ReadReal(RealText(x, lib)) == x
  {
    hide Sexagesimal.Float, Sexagesimal.Strip;
  }

  lemma TimeReads(t: Option<int>, lib: Library)
    requires Faithful(lib)
    ensures ReadTime(TimeText(t, lib), lib) == t
  {
    hide PayloadSurvives;
    assert t.Some? ==> TimeSurvives(lib, t.value);
  }

  lemma DigitsAreNoSpaces(s: string)
    requires Digits.IsDigits(s) && s != ""
    ensures Sexagesimal.Strip(s) == s && Sexagesimal.Strip("-" + s) == "-" + s
  {
    assert Digits.IsDigit(s[0]) && Digits.IsDigit(s[|s| - 1]);
    StrippedEnds(s);
    StrippedEnds("-" + s);
  }

  lemma IntReads(n: int)
    ensures ReadInt(ShowInt(n)) == Some(n)
  {
    var m: nat := if n < 0 then -n else n;
    var digits := Digits.ToText(m);
    Digits.ToTextVal(m);
    DigitsAreNoSpaces(digits);
    assert Digits.IsDigit(digits[0]);
    assert ("-" + digits)[1..] == digits;
  }

  lemma {:induction false} NoSpacesStays(s: string)
    requires NoSpaces(s)
    ensures WithoutSpaces(s) == s
  {
    if s != "" {
      NoSpacesStays(s[1..]);
      assert [s[0]] + s[1..] == s;
    }
  }

  lemma PayloadReads(b: Bytes, lib: Library)
    requires Faithful(lib) && b != []
    ensures var text := Sexagesimal.Strip(lib.encode(b));
            text != "" && lib.decode(WithoutSpaces(text)) == Some(b)
  {
    hide TimeSurvives;
    assert PayloadSurvives(lib, b);
    StrippedEnds(lib.encode(b));
    NoSpacesStays(lib.encode(b));
  }

  // ------------------------------------------------------------------------ //
  // Round trips                                                               //
  // ------------------------------------------------------------------------ //

  lemma NumberDefReads(e: Element, lib: Library)
    requires e.Number? && Normal(e, lib) && Definable(e, lib)
    ensures ElementNode(e, true, lib).Some?
    ensures ElementOf(ElementNode(e, true, lib).value, NumberKind, lib) == Some(Settled(e, lib))
  {
    hide Sexagesimal.Parsed, Sexagesimal.Strip, ReadReal, RealText, RealSurvives;
    RealReads(e.min, lib);
    RealReads(e.max, lib);
    RealReads(e.step, lib);
  }

  /** A definition's element reads back as it was, its number settled. */
  lemma ElementDefReads(e: Element, lib: Library)
    requires Faithful(lib) && Normal(e, lib) && Definable(e, lib)
    ensures ElementNode(e, true, lib).Some?
    ensures ElementOf(ElementNode(e, true, lib).value, e.Kind(), lib) == Some(Settled(e, lib))
  {
    hide Faithful, Sexagesimal.Strip, StateText, SwitchText, ReadState, ReadSwitch;
    match e
    case Number(_, _, _, _, _, _, _) => NumberDefReads(e, lib);
    case Text(_, _, _) =>
    case Switch(_, _, s) => SwitchReads(s);
    case Light(_, _, s) => StateReads(s);
    case Blob(_, _, _, _, _) => StrippedEnds("");
  }

  /** Two elements that any cached element takes the same value from. */
  predicate SameValue(a: Element, b: Element) {
    && a.name == b.name && a.Kind() == b.Kind()
    && match a
       case Number(_, _, _, _, _, _, x) => b.number == x
       case Text(_, _, t) => b.text == t
       case Switch(_, _, s) => b.switch == s
       case Light(_, _, s) => b.light == s
       case Blob(_, _, encoding, size, data) => b.encoding == encoding && b.size == size && b.data == data
  }

  lemma NumberSetReads(e: Element, lib: Library) returns (r: Element)
    requires e.Number? && Normal(e, lib)
    ensures ElementNode(e, false, lib).Some?
    ensures ElementOf(ElementNode(e, false, lib).value, NumberKind, lib) == Some(r) && SameValue(r, Settled(e, lib))
  {
    hide Sexagesimal.Parsed, Sexagesimal.Strip, ReadReal;
    r := ElementOf(ElementNode(e, false, lib).value, NumberKind, lib).value;
  }

  lemma BlobSetReads(e: Element, lib: Library) returns (r: Element)
    requires Faithful(lib) && e.Blob? && Normal(e, lib)
    ensures ElementNode(e, false, lib).Some?
    ensures ElementOf(ElementNode(e, false, lib).value, BlobKind, lib) == Some(r) && SameValue(r, e)
  {
    hide Faithful, ShowInt, ReadInt, WithoutSpaces, Sexagesimal.Strip;
    StrippedEnds("");
    if e.data.Some? {
      PayloadReads(e.data.value, lib);
      IntReads(e.size.value);
    }
    r := ElementOf(ElementNode(e, false, lib).value, BlobKind, lib).value;
  }

  /** An update's element reads back with the value any merge would take from it. */
  lemma ElementSetReads(e: Element, lib: Library) returns (r: Element)
    requires Faithful(lib) && Normal(e, lib)
    ensures ElementNode(e, false, lib).Some?
    ensures ElementOf(ElementNode(e, false, lib).value, e.Kind(), lib) == Some(r) && SameValue(r, Settled(e, lib))
  {
    hide Faithful, Sexagesimal.Strip, StateText, SwitchText, ReadState, ReadSwitch;
    match e
    case Number(_, _, _, _, _, _, _) => r := NumberSetReads(e, lib);
    case Text(_, _, _) => r := ElementOf(ElementNode(e, false, lib).value, TextKind, lib).value;
    case Switch(_, _, s) =>
      SwitchReads(s);
      r := ElementOf(ElementNode(e, false, lib).value, SwitchKind, lib).value;
    case Light(_, _, s) =>
      StateReads(s);
      r := ElementOf(ElementNode(e, false, lib).value, LightKind, lib).value;
    case Blob(_, _, _, _, _) => r := BlobSetReads(e, lib);
  }

  lemma {:induction false} ElementsDefRead(elements: seq<Element>, kind: Kind, lib: Library)
    requires Faithful(lib)
    requires forall i :: 0 <= i < |elements| ==>
               elements[i].Kind() == kind && Normal(elements[i], lib) && Definable(elements[i], lib)
    ensures var nodes := ElementNodes(elements, true, lib);
            nodes.Some? && ElementsOf(nodes.value, kind, lib) == Some(SettledAll(elements, lib))
  {
    hide Faithful, ElementNode, ElementOf, Normal, Settled, Definable;
    if elements == [] {
      assert SettledAll(elements, lib) == [];
    } else {
      var last := |elements| - 1;
      ElementsDefRead(elements[..last], kind, lib);
      ElementDefReads(elements[last], lib);
      var front, node := ElementNodes(elements[..last], true, lib).value, ElementNode(elements[last], true, lib).value;
      assert ElementNodes(elements, true, lib) == Some(front + [node]);
      ElementsOfSnoc(front, node, kind, lib);
      assert SettledAll(elements, lib) == SettledAll(elements[..last], lib) + [Settled(elements[last], lib)];
    }
  }

  lemma ElementsOfSnoc(front: seq<Node>, node: Node, kind: Kind, lib: Library)
    requires ElementsOf(front, kind, lib).Some? && ElementOf(node, kind, lib).Some?
    ensures ElementsOf(front + [node], kind, lib)
            == Some(ElementsOf(front, kind, lib).value + [ElementOf(node, kind, lib).value])
  {
    hide ElementOf;
    assert (front + [node])[..|front|] == front;
  }

  lemma {:induction false} NodesLength(elements: seq<Element>, full: bool, lib: Library)
    ensures ElementNodes(elements, full, lib).Some? ==> |ElementNodes(elements, full, lib).value| == |elements|
  {
    hide ElementNode;
    if elements != [] {
      NodesLength(elements[..|elements| - 1], full, lib);
    }
  }

  /** The same values, element by element. */
  predicate SameValues(xs: seq<Element>, ys: seq<Element>) {
    |xs| == |ys| && forall i :: 0 <= i < |xs| ==> SameValue(xs[i], ys[i])
  }

  lemma {:induction false} ElementsSetRead(elements: seq<Element>, kind: Kind, lib: Library) returns (read: seq<Element>)
    requires Faithful(lib)
    requires forall i :: 0 <= i < |elements| ==> elements[i].Kind() == kind && Normal(elements[i], lib)
    ensures ElementNodes(elements, false, lib).Some?
    ensures ElementsOf(ElementNodes(elements, false, lib).value, kind, lib) == Some(read)
    ensures |read| == |elements| && forall i :: 0 <= i < |read| ==> SameValue(read[i], Settled(elements[i], lib))
  {
    hide Faithful, ElementNode, ElementOf, Normal, Settled, SameValue;
    read := [];
    if elements != [] {
      var last := |elements| - 1;
      read := ElementsSetRead(elements[..last], kind, lib);
      var r := ElementSetReads(elements[last], lib);
      NodesLength(elements[..last], false, lib);
      var nodes := ElementNodes(elements, false, lib).value;
      assert nodes[..last] == ElementNodes(elements[..last], false, lib).value;
      read := read + [r];
    }
  }

  /** The attribute of a definition, or of an update, under each name. */
  function AttributeOf(v: Vector, mode: Mode, key: Attribute, lib: Library): Option<string> {
    match key
    case Device => Some(v.device)
    case Name => Some(v.name)
    case Label => if mode == Def then v.caption else None
    case Group => if mode == Def then v.group else None
    case State => Some(StateText(v.state))
    case Perm => if mode == Def && v.perm.Some? then Some(PermText(v.perm.value)) else None
    case Rule => if mode == Def && v.rule.Some? then Some(RuleText(v.rule.value)) else None
    case Timeout => RealText(v.timeout, lib)
    case Timestamp => TimeText(v.timestamp, lib)
    case Note => v.message
    case _ => None
  }

  lemma TitledAt(v: Vector, key: Attribute)
    ensures At(Titled(v), key) == match key case Device => Some(v.device) case Name => Some(v.name)
                                            case Label => v.caption case Group => v.group case _ => None
  {
  }

  lemma RuledAt(attrs: Attributes, v: Vector, key: Attribute)
    requires (v.perm.None? <==> v.kind == LightKind) && (v.rule.Some? <==> v.kind == SwitchKind)
    requires At(attrs, Perm) == None && At(attrs, Rule) == None
    ensures At(Ruled(attrs, v), key)
            == if key == Perm then (if v.perm.Some? then Some(PermText(v.perm.value)) else None)
               else if key == Rule then (if v.rule.Some? then Some(RuleText(v.rule.value)) else None)
               else At(attrs, key)
  {
    hide PermText, RuleText;
  }

  lemma DatedAt(attrs: Attributes, v: Vector, key: Attribute, lib: Library)
    requires At(attrs, Timeout) == None && At(attrs, Timestamp) == None && At(attrs, Note) == None
    ensures At(Dated(attrs, v, true, lib), key)
            == if key == Timeout then RealText(v.timeout, lib)
               else if key == Timestamp then TimeText(v.timestamp, lib)
               else if key == Note then v.message
               else At(attrs, key)
  {
    hide RealText, TimeText;
  }

  lemma DefAttribute(v: Vector, key: Attribute, lib: Library)
    requires (v.perm.None? <==> v.kind == LightKind) && (v.rule.Some? <==> v.kind == SwitchKind)
    ensures At(VectorAttributes(v, Def, lib), key) == AttributeOf(v, Def, key, lib)
  {
    hide StateText, PermText, RuleText, RealText, TimeText, Dated, Ruled, Titled;
    forall k: Attribute ensures At(Stated(Titled(v), v), k) == if k == State then Some(StateText(v.state)) else At(Titled(v), k) {
    }
    TitledAt(v, Perm);
    TitledAt(v, Rule);
    RuledAt(Stated(Titled(v), v), v, Timeout);
    RuledAt(Stated(Titled(v), v), v, Timestamp);
    RuledAt(Stated(Titled(v), v), v, Note);
    TitledAt(v, Timeout);
    TitledAt(v, Timestamp);
    TitledAt(v, Note);
    TitledAt(v, key);
    RuledAt(Stated(Titled(v), v), v, key);
    DatedAt(Ruled(Stated(Titled(v), v), v), v, key, lib);
  }

  lemma SetAttribute(v: Vector, key: Attribute, lib: Library)
    ensures At(VectorAttributes(v, Set, lib), key) == AttributeOf(v, Set, key, lib)
  {
    hide StateText, RealText, TimeText, Dated;
    DatedAt(Stated(map[Device := v.device, Name := v.name], v), v, key, lib);
  }

  lemma VectorDefReads(v: Vector, nodes: seq<Node>, elements: seq<Element>, lib: Library)
    requires Faithful(lib) && NormalVector(v, lib) && ElementsOf(nodes, v.kind, lib) == Some(elements)
    ensures VectorOf(Node(VectorTag(Def, v.kind), VectorAttributes(v, Def, lib), "", nodes), v.kind, lib)
            == Some(v.(elements := elements))
  {
    hide Faithful, StateText, PermText, RuleText, RealText, TimeText, ReadReal, ReadTime, ReadState, ReadPerm, ReadRule,
         VectorAttributes, ElementsOf, Normal, At;
    forall key ensures At(VectorAttributes(v, Def, lib), key) == AttributeOf(v, Def, key, lib) {
      DefAttribute(v, key, lib);
    }
    StateReads(v.state);
    RealReads(v.timeout, lib);
    TimeReads(v.timestamp, lib);
    if v.perm.Some? {
      PermReads(v.perm.value);
    }
    if v.rule.Some? {
      RuleReads(v.rule.value);
    }
  }

  /** A definition without payloads comes off the wire as it was put on, each number as
      the text it was printed as reads. */
  lemma DefinitionRoundTrip(v: Vector, lib: Library)
    requires Faithful(lib) && NormalVector(v, lib)
    requires forall i :: 0 <= i < |v.elements| ==> Definable(v.elements[i], lib)
    ensures VectorNode(v, Def, lib).Some?
    ensures MessageOf(VectorNode(v, Def, lib).value, lib) == Parsed(DefVector(SettledVector(v, lib)))
  {
    hide Faithful, VectorAttributes, ElementNodes, ElementsOf, Normal, SettledAll, VectorOf;
    ElementsDefRead(v.elements, v.kind, lib);
    VectorDefReads(v, ElementNodes(v.elements, true, lib).value, SettledVector(v, lib).elements, lib);
  }

  lemma VectorSetReads(v: Vector, nodes: seq<Node>, elements: seq<Element>, lib: Library)
    requires Faithful(lib) && NormalVector(v, lib) && ElementsOf(nodes, v.kind, lib) == Some(elements)
    ensures var read := VectorOf(Node(VectorTag(Set, v.kind), VectorAttributes(v, Set, lib), "", nodes), v.kind, lib);
            && read.Some? && read.value.elements == elements && read.value.state == v.state
            && read.value.timeout == v.timeout && read.value.timestamp == v.timestamp && read.value.message == v.message
            && read.value.device == v.device && read.value.name == v.name
  {
    hide Faithful, StateText, RealText, TimeText, ReadReal, ReadTime, ReadState, ReadPerm, ReadRule,
         VectorAttributes, ElementsOf, Normal, At;
    forall key ensures At(VectorAttributes(v, Set, lib), key) == AttributeOf(v, Set, key, lib) {
      SetAttribute(v, key, lib);
    }
    StateReads(v.state);
    RealReads(v.timeout, lib);
    TimeReads(v.timestamp, lib);
  }

  lemma MergeSameValue(cached: Element, a: Element, b: Element)
    requires SameValue(a, b)
    ensures MergeElement(cached, a) == MergeElement(cached, b)
  {
  }

  lemma MergeSameValues(cached: seq<Element>, xs: seq<Element>, ys: seq<Element>)
    requires SameValues(xs, ys)
    ensures MergeElements(cached, xs) == MergeElements(cached, ys)
  {
    hide MergeElement, ByName;
    assert forall i :: 0 <= i < |xs| ==> SameValue(xs[i], ys[i]) && xs[i].name == ys[i].name;
    forall i | 0 <= i < |cached| ensures MergeOne(cached[i], xs) == MergeOne(cached[i], ys) {
      var at := ByNameAligned(xs, ys, cached[i].name);
      if ByName(xs, cached[i].name).Some? {
        MergeSameValue(cached[i], xs[at], ys[at]);
      }
    }
  }

  /** A printed update reads back as one that always states its state, and otherwise
      leaves any cached definition as the original would: the metadata an update does not
      carry never mattered. */
  lemma UpdateRoundTrip(v: Vector, lib: Library) returns (read: Vector)
    requires Faithful(lib) && NormalVector(v, lib)
    ensures VectorNode(v, Set, lib).Some?
    ensures MessageOf(VectorNode(v, Set, lib).value, lib) == Parsed(SetVector(read, true))
    ensures read.device == v.device && read.name == v.name
    ensures forall cached :: MergeVector(cached, read, true) == MergeVector(cached, SettledVector(v, lib), true)
  {
    hide Faithful, ElementNodes, ElementsOf, Normal, Settled, VectorOf, SameValue, StateText, RealText, TimeText;
    var elements := ElementsSetRead(v.elements, v.kind, lib);
    VectorSetReads(v, ElementNodes(v.elements, false, lib).value, elements, lib);
    SetAttribute(v, State, lib);
    var node := VectorNode(v, Set, lib).value;
    read := VectorOf(node, v.kind, lib).value;
    forall cached: Vector ensures MergeVector(cached, read, true) == MergeVector(cached, SettledVector(v, lib), true) {
      MergeSameValues(cached.elements, read.elements, SettledVector(v, lib).elements);
    }
  }

  /** An update whose state was absent is printed with one: it still merges as it would
      have exactly where the cached vector is in that state. */
  lemma AbsentStateIsStated(cached: Vector, v: Vector)
    ensures MergeVector(cached, v, true) == MergeVector(cached, v, false) <==> cached.state == v.state
  {
  }

  lemma VectorNewReads(v: Vector, nodes: seq<Node>, elements: seq<Element>, lib: Library)
    requires Faithful(lib) && v.device != "" && v.name != "" && ElementsOf(nodes, v.kind, lib) == Some(elements)
    ensures VectorOf(Node(VectorTag(New, v.kind), VectorAttributes(v, New, lib), "", nodes), v.kind, lib)
            == Some(Vector(v.device, v.name, None, None, v.kind, if v.kind == LightKind then None else Some(RW),
                           if v.kind == SwitchKind then Some(AnyOfMany) else None, Idle, None, v.timestamp, v.message,
                           elements))
  {
    hide Faithful, StateText, RealText, TimeText, ReadTime, ReadState, ReadPerm, ReadRule, ElementsOf,
         Sexagesimal.Float, Sexagesimal.Strip;
    TimeReads(v.timestamp, lib);
  }

  /** A printed command reads back for the same property, with the values it asked for and
      nothing of a definition's metadata. */
  lemma CommandRoundTrip(v: Vector, lib: Library) returns (read: Vector)
    requires Faithful(lib) && v.device != "" && v.name != ""
    requires forall i :: 0 <= i < |v.elements| ==> v.elements[i].Kind() == v.kind && Normal(v.elements[i], lib)
    ensures MessageNode(NewVector(v), lib).Some?
    ensures MessageOf(MessageNode(NewVector(v), lib).value, lib) == Parsed(NewVector(read))
    ensures read.device == v.device && read.name == v.name && read.kind == v.kind
    ensures read.timestamp == v.timestamp && read.message == v.message
    ensures SameValues(read.elements, SettledVector(v, lib).elements)
    ensures read.state == Idle && read.timeout == None && read.caption == None && read.group == None
  {
    hide Faithful, ElementNodes, ElementsOf, Normal, Settled, VectorOf, SameValue, VectorAttributes;
    var elements := ElementsSetRead(v.elements, v.kind, lib);
    VectorNewReads(v, ElementNodes(v.elements, false, lib).value, elements, lib);
    read := VectorOf(VectorNode(v, New, lib).value, v.kind, lib).value;
  }

  /** A message that is not a vector's comes off the wire as it was put on. */
  lemma MessageRoundTrip(msg: IndiMessage, lib: Library)
    requires Faithful(lib)
    requires msg.GetProperties? || msg.DelProperty? || msg.Message? || msg.EnableBlob?
    requires (msg.GetProperties? ==> msg.version != "") && (msg.DelProperty? || msg.EnableBlob? ==> msg.device != "")
    ensures MessageNode(msg, lib).Some? && MessageOf(MessageNode(msg, lib).value, lib) == Parsed(msg)
  {
    hide Faithful, TimeText, ReadTime, PolicyText, ReadPolicy, Sexagesimal.Strip;
    if msg.DelProperty? || msg.Message? {
      TimeReads(msg.timestamp, lib);
    } else if msg.EnableBlob? {
      PolicyReads(msg.policy);
    }
  }

  /** An update says whether it stated a state: one that did not leaves the state a property
      is latched in alone, and one that did states the state its text reads as. */
  lemma StateIfStated(node: Node, lib: Library)
    requires node.tag.VectorTag? && node.tag.mode == Set && MessageOf(node, lib).Parsed?
    ensures var msg := MessageOf(node, lib).msg;
            && msg.SetVector? && (msg.statePresent <==> State in node.attrs)
            && (State in node.attrs && node.attrs[State] != "" ==> ReadState(node.attrs[State]) == Some(msg.vector.state))
            && forall cached: Vector ::
                 MergeVector(cached, msg.vector, msg.statePresent).state
                 == if State in node.attrs then msg.vector.state else cached.state
  {
    hide ReadState, ReadPerm, ReadRule, ElementsOf, ReadReal, ReadTime;
  }

  /** What a vector that says nothing but whose it is reads as; a token or a time that is there
      but empty says nothing either. */
  lemma BareVectorReads(node: Node, kind: Kind, lib: Library)
    requires node.children == [] && {Device, Name} <= node.attrs.Keys <= {Device, Name, State, Perm, Rule, Timestamp}
    requires node.attrs[Device] != "" && node.attrs[Name] != ""
    requires forall key :: key in node.attrs && key != Device && key != Name ==> node.attrs[key] == ""
    ensures VectorOf(node, kind, lib)
            == Some(Vector(node.attrs[Device], node.attrs[Name], None, None, kind,
                           if kind == LightKind then None else Some(RW),
                           if kind == SwitchKind then Some(AnyOfMany) else None,
                           Idle, None, None, None, []))
  {
    assert Label !in node.attrs.Keys && Group !in node.attrs.Keys && Timeout !in node.attrs.Keys
           && Note !in node.attrs.Keys;
  }

  /** What an element that says nothing but its name reads as, a number's bounds that are no
      numbers and its format, if empty, saying nothing either. */
  lemma BareElementReads(node: Node, kind: Kind, lib: Library)
    requires {Name} <= node.attrs.Keys <= {Name, Format, Minimum, Maximum, Step} && node.text == ""
    requires Format in node.attrs ==> kind == NumberKind && node.attrs[Format] == ""
    requires forall key :: key in node.attrs && key != Name && key != Format ==>
               Sexagesimal.Float(Sexagesimal.Strip(node.attrs[key])) == Sexagesimal.Refused
    ensures var name := node.attrs[Name];
            ElementOf(node, kind, lib)
            == Some(match kind
                    case NumberKind => Number(name, None, "%g", None, None, None, 0.0)
                    case TextKind => Text(name, None, "")
                    case SwitchKind => Switch(name, None, Off)
                    case LightKind => Light(name, None, Idle)
                    case BlobKind => Blob(name, None, None, None, None))
  {
    hide Sexagesimal.Float;
    assert Label !in node.attrs.Keys && Size !in node.attrs.Keys;
    StrippedEnds("");
  }

  /** What the other messages read as with no more than they need: a request for everything
      at protocol 1.7, a deletion of the whole device, an empty note from nobody, BLOBs
      along with everything else; and a deletion or a policy of no device is refused. */
  lemma BareMessagesRead(device: string, lib: Library)
    ensures MessageOf(Node(GetPropertiesTag, map[], "", []), lib) == Parsed(GetProperties("1.7", None, None))
    ensures MessageOf(Node(MessageTag, map[], "", []), lib) == Parsed(Message(None, None, ""))
    ensures MessageOf(Node(DelPropertyTag, map[Device := device], "", []), lib)
            == if device == "" then Outcome.Refused else Parsed(DelProperty(device, None, None, None))
    ensures MessageOf(Node(EnableBlobTag, map[Device := device], "", []), lib)
            == if device == "" then Outcome.Refused else Parsed(EnableBlob(device, None, Also))
  {
    StrippedEnds("");
  }

  /** A payload is printed with the length it was said to have, or its own, and the length of
      its text; a definition and an element without one print none. */
  lemma PayloadSaysItsLength(e: Element, full: bool, lib: Library)
    requires e.Blob? && Describable(e)
    ensures ElementNode(e, full, lib).Some?
    ensures var node := ElementNode(e, full, lib).value;
            if full || e.data.None? then node.text == "" && Size !in node.attrs && EncLen !in node.attrs
            else
              && node.text == lib.encode(e.data.value)
              && Get(node, Size) == Some(ShowInt(if e.size.Some? then e.size.value else |e.data.value|))
              && Get(node, EncLen) == Some(ShowInt(|node.text|))
  {
  }

  /** A vector without a device or a name is refused. */
  lemma UnnamedRefused(node: Node, lib: Library)
    requires node.tag.VectorTag?
    requires || Get(node, Device).None? || Get(node, Device) == Some("")
             || Get(node, Name).None? || Get(node, Name) == Some("")
    ensures MessageOf(node, lib) == Outcome.Refused
  {
    hide ReadReal, ReadTime, ReadState, ReadPerm, ReadRule, ElementsOf;
  }

  /** A vector with an element that cannot be read is refused: a number, a switch, a light or a
      payload whose text is none. */
  lemma UnreadableRefused(node: Node, i: nat, lib: Library)
    requires node.tag.VectorTag? && i < |node.children|
    requires var text := Sexagesimal.Strip(node.children[i].text);
             && text != ""
             && match node.tag.kind
                case NumberKind => Sexagesimal.Parsed(text) == Sexagesimal.Refused
                case SwitchKind => text != "On" && text != "Off"
                case LightKind => text != "Idle" && text != "Ok" && text != "Busy" && text != "Alert"
                case BlobKind => lib.decode(WithoutSpaces(text)) == None
                case TextKind => false
    ensures MessageOf(node, lib) == Outcome.Refused
  {
    hide Sexagesimal.Parsed, WithoutSpaces, ReadReal, ReadTime, ReadPerm, ReadRule, Inflated, Sexagesimal.Strip;
    StripOnce(node.children[i].text);
    OneRefusesAll(node.children, i, node.tag.kind, lib);
  }

  lemma {:induction false} OneRefusesAll(nodes: seq<Node>, i: nat, kind: Kind, lib: Library)
    requires i < |nodes| && ElementOf(nodes[i], kind, lib).None?
    ensures ElementsOf(nodes, kind, lib).None?
  {
    hide ElementOf;
    if i < |nodes| - 1 {
      OneRefusesAll(nodes[..|nodes| - 1], i, kind, lib);
    }
  }

  /** A payload that was sent compressed arrives inflated, with the length it then has and
      the format it would have had uncompressed. */
  lemma CompressedArrivesInflated(name: string, format: string, payload: Bytes, raw: Bytes, size: string, lib: Library)
    requires Faithful(lib) && payload != [] && lib.inflate(payload) == Some(raw)
    ensures ElementOf(Node(ElementTag(false, BlobKind), map[Name := name, Format := format + ".z", Size := size],
                           lib.encode(payload), []), BlobKind, lib)
            == Some(Blob(name, None, if format == "" then None else Some(format), Some(|raw|), Some(raw)))
  {
    hide Faithful, ReadInt, WithoutSpaces, Sexagesimal.Strip;
    PayloadReads(payload, lib);
    assert (format + ".z")[|format|..] == ".z" && (format + ".z")[..|format|] == format;
  }

  /** A vector is refused exactly for a compressed payload whose length it does not say. */
  lemma {:induction false} RefusedExactly(elements: seq<Element>, full: bool, lib: Library)
    ensures ElementNodes(elements, full, lib).Some? <==>
            forall i :: 0 <= i < |elements| ==> Describable(elements[i])
  {
    if elements != [] {
      var last := |elements| - 1;
      RefusedExactly(elements[..last], full, lib);
      NodeIffDescribable(elements[last], full, lib);
      assert forall i :: 0 <= i < last ==> elements[..last][i] == elements[i];
    }
  }

  lemma NodeIffDescribable(e: Element, full: bool, lib: Library)
    ensures ElementNode(e, full, lib).Some? <==> Describable(e)
  {
  }

  /** Where numbers are printed in the sexagesimal form, what survives of one is its
      whole parts of a degree. */
  lemma SexagesimalSettles(e: Element, width: nat, frac: nat, lib: Library)
    requires e.Number? && lib.render(e.number, e.format) == Sexagesimal.FormatNumber(e.number, width, frac)
    ensures Settled(e, lib) == e.(number := Sexagesimal.Rounded(e.number, Sexagesimal.FracBase(frac)))
  {
    hide Sexagesimal.FormatNumber, Sexagesimal.Strip, Sexagesimal.Rounded;
    Sexagesimal.PrintThenRead(e.number, width, frac);
    ParsedStripped(lib.render(e.number, e.format));
  }

  /** Where a number is printed as decimal text, what survives of it is the number that text
      denotes. */
  lemma DecimalSettles(e: Element, negative: bool, whole: string, fraction: string, marker: char, exponent: Option<int>,
                       n: nat, s: int, lib: Library)
    requires e.Number? && Digits.IsDigits(whole) && whole != "" && Digits.IsDigits(fraction)
    requires marker == 'e' || marker == 'E'
    requires var text := Printf.Text(whole, fraction, Sexagesimal.TailText(marker, exponent));
             Printf.Denotes(text, n, s) && lib.render(e.number, e.format) == Sexagesimal.SignText(negative) + text
    ensures Settled(e, lib) == e.(number := Sexagesimal.Signed(negative, Sexagesimal.Scaled(n, s)))
  {
    hide Printf.Text, Printf.Denotes, Sexagesimal.TailText, Sexagesimal.Strip, Sexagesimal.Parsed, Sexagesimal.Scaled;
    Sexagesimal.PrintedReads(negative, whole, fraction, marker, exponent, n, s);
    ParsedStripped(lib.render(e.number, e.format));
  }

  lemma ParsedStripped(text: string)
    ensures Sexagesimal.Strip(text) != "" ==> Sexagesimal.Parsed(Sexagesimal.Strip(text)) == Sexagesimal.Parsed(text)
    ensures Sexagesimal.Strip(text) == "" ==> Sexagesimal.Parsed(text) == Sexagesimal.Value(0.0)
  {
    StripOnce(text);
    hide Sexagesimal.Strip, Sexagesimal.Float, Sexagesimal.Magnitudes, Sexagesimal.Split, Sexagesimal.Weighted;
  }
}
