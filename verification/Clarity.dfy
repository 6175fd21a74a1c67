/** Decoding the JSON that `cvToJSON` produces for Clarity values (stacks clarity.ts). */
module Clarity {
  import opened Decimals
  import opened Texts

  /** A plain JavaScript value; object fields keep their order. */
  datatype Js =
    | Null
    | Bool(b: bool)
    | Str(s: string)
    | Arr(items: seq<Js>)
    | Obj(fields: seq<JsField>)

  datatype JsField = JsField(key: string, value: Js)

  /** Position of a key, or -1. */
  function IndexOf(fields: seq<JsField>, key: string): (i: int)
    ensures -1 <= i < |fields|
    ensures i >= 0 ==> fields[i].key == key
    ensures i < 0 ==> forall j | 0 <= j < |fields| :: fields[j].key != key
  {
    if fields == [] then -1
    else if fields[0].key == key then 0
    else
      var i := IndexOf(fields[1..], key);
      if i < 0 then -1 else i + 1
  }

  predicate IsDelimiter(c: char) { IsSpace(c) || c == '(' || c == ')' }

  function UpToDelimiter(s: string): string {
    if s == "" || IsDelimiter(s[0]) then "" else [s[0]] + UpToDelimiter(s[1..])
  }

  /** `clarityKind`: the outermost constructor of a type signature. */
  function Kind(signature: string): string {
    var t := Trim(signature);
    if t == "" || t[0] != '(' then Lower(t) else Lower(UpToDelimiter(t[1..]))
  }

  predicate HasStringType(fields: seq<JsField>) {
    var i := IndexOf(fields, "type");
    i >= 0 && fields[i].value.Str?
  }

  function KindOf(fields: seq<JsField>): string
    requires HasStringType(fields)
  {
    Kind(fields[IndexOf(fields, "type")].value.s)
  }

  /** `unwrapClarity`. */
  function Unwrap(input: Js): Js
    decreases input
  {
    match input
    case Arr(items) => Arr(UnwrapItems(items))
    case Obj(fields) =>
      var at := IndexOf(fields, "value");
      if !HasStringType(fields) then Obj(UnwrapFields(fields))
      else if KindOf(fields) == "none" then Null
      else if KindOf(fields) == "optional" then
        if at < 0 || fields[at].value.Null? then Null else Unwrap(fields[at].value)
      else if at >= 0 then Unwrap(fields[at].value)
      else Obj(UnwrapFields(fields))
    case _ => input
  }

  function UnwrapItems(items: seq<Js>): (r: seq<Js>)
    ensures |r| == |items| && forall i | 0 <= i < |r| :: r[i] == Unwrap(items[i])
    decreases items
  {
    if items == [] then [] else [Unwrap(items[0])] + UnwrapItems(items[1..])
  }

  function UnwrapFields(fields: seq<JsField>): (r: seq<JsField>)
    ensures |r| == |fields| && forall i | 0 <= i < |r| :: r[i] == JsField(fields[i].key, Unwrap(fields[i].value))
    decreases fields
  {
    if fields == [] then [] else [JsField(fields[0].key, Unwrap(fields[0].value))] + UnwrapFields(fields[1..])
  }

  datatype Response = Response(ok: bool, value: Js)

  /** `unwrapClarityResponse`; a response without a value reads as null. */
  function UnwrapResponse(input: Js): Response {
    if input.Obj? && HasStringType(input.fields) && KindOf(input.fields) == "response" then
      var success, at := IndexOf(input.fields, "success"), IndexOf(input.fields, "value");
      Response(!(success >= 0 && input.fields[success].value == Bool(false)),
               if at < 0 then Null else Unwrap(input.fields[at].value))
    else Response(true, Unwrap(input))
  }

  // ----- Clarity values and their nodes

  datatype Cv =
    | Int(n: int)
    | UInt(u: nat)
    | BoolCv(b: bool)
    | Buffer(hex: string)
    | AsciiText(s: string)
    | Utf8Text(s: string)
    | Principal(p: string)
    | NoneCv
    | SomeCv(v: Cv)
    | OkCv(v: Cv)
    | ErrCv(v: Cv)
    | List(items: seq<Cv>)
    | Tuple(fields: seq<CvField>)

  datatype CvField = CvField(key: string, value: Cv)

  function Plain(v: Cv): Js
    decreases v
  {
    match v
    case Int(n) => Str(Integer(n))
    case UInt(u) => Str(Decimal(u))
    case BoolCv(b) => Bool(b)
    case Buffer(hex) => Str("0x" + hex)
    case AsciiText(s) => Str(s)
    case Utf8Text(s) => Str(s)
    case Principal(p) => Str(p)
    case NoneCv => Null
    case SomeCv(x) => Plain(x)
    case OkCv(x) => Plain(x)
    case ErrCv(x) => Plain(x)
    case List(items) => Arr(PlainItems(items))
    case Tuple(fields) => Obj(PlainFields(fields))
  }

  function PlainItems(items: seq<Cv>): (r: seq<Js>)
    ensures |r| == |items| && forall i | 0 <= i < |r| :: r[i] == Plain(items[i])
    decreases items
  {
    if items == [] then [] else [Plain(items[0])] + PlainItems(items[1..])
  }

  function PlainFields(fields: seq<CvField>): (r: seq<JsField>)
    ensures |r| == |fields| && forall i | 0 <= i < |r| :: r[i] == JsField(fields[i].key, Plain(fields[i].value))
    decreases fields
  {
    if fields == [] then [] else [JsField(fields[0].key, Plain(fields[0].value))] + PlainFields(fields[1..])
  }

  /**
   * The node stands for the value. Nothing is asked of its type signature beyond its outermost
   * constructor, whatever nested types it spells out.
   */
  ghost predicate Encodes(js: Js, v: Cv)
    decreases v
  {
    && js.Obj? && HasStringType(js.fields)
    && var kind, at := KindOf(js.fields), IndexOf(js.fields, "value");
       if v.NoneCv? then kind == "none" || (kind == "optional" && (at < 0 || js.fields[at].value.Null?))
       else
         && at >= 0 && kind != "none" && (kind == "optional" <==> v.SomeCv?)
         && var x := js.fields[at].value;
            match v
            case SomeCv(y) => Encodes(x, y)
            case OkCv(y) => Encodes(x, y)
            case ErrCv(y) => Encodes(x, y)
            case List(items) => x.Arr? && |x.items| == |items|
               && forall i | 0 <= i < |items| :: Encodes(x.items[i], items[i])
            case Tuple(fields) =>
              && x.Obj? && |x.fields| == |fields|
              && forall i | 0 <= i < |fields| ::
                    x.fields[i].key == fields[i].key && Encodes(x.fields[i].value, fields[i].value)
            case _ => x == Plain(v)
  }

  lemma UnwrapNode(fields: seq<JsField>)
    requires HasStringType(fields) && KindOf(fields) != "none" && IndexOf(fields, "value") >= 0
    requires KindOf(fields) == "optional" ==> !fields[IndexOf(fields, "value")].value.Null?
    ensures Unwrap(Obj(fields)) == Unwrap(fields[IndexOf(fields, "value")].value)
  {
    hide KindOf, HasStringType;
  }

  lemma UnwrapList(xs: seq<Js>, items: seq<Cv>)
    requires |xs| == |items| && forall i | 0 <= i < |items| :: Unwrap(xs[i]) == Plain(items[i])
    ensures Unwrap(Arr(xs)) == Plain(List(items))
  {
    assert UnwrapItems(xs) == PlainItems(items);
  }

  /** A tuple's field map is no node, even with a field named "type": that field holds a node, not a string. */
  lemma UnwrapTuple(xs: seq<JsField>, fields: seq<CvField>)
    requires |xs| == |fields|
    requires forall i | 0 <= i < |fields| ::
      xs[i].key == fields[i].key && xs[i].value.Obj? && Unwrap(xs[i].value) == Plain(fields[i].value)
    ensures Unwrap(Obj(xs)) == Plain(Tuple(fields))
  {
    hide KindOf;
    assert !HasStringType(xs);
    assert UnwrapFields(xs) == PlainFields(fields);
  }

  /** Decoding a node gives the plain value, at any nesting and even if a field is named "type". */
  lemma {:induction false} UnwrapInvertsEncoding(js: Js, v: Cv)
    requires Encodes(js, v)
    ensures Unwrap(js) == Plain(v)
    decreases v
  {
    hide KindOf, HasStringType;
    if !v.NoneCv? {
      var x := js.fields[IndexOf(js.fields, "value")].value;
      match v {
        case SomeCv(y) => UnwrapInvertsEncoding(x, y);
        case OkCv(y) => UnwrapInvertsEncoding(x, y);
        case ErrCv(y) => UnwrapInvertsEncoding(x, y);
        case List(items) =>
          forall i | 0 <= i < |items| ensures Unwrap(x.items[i]) == Plain(items[i]) {
            UnwrapInvertsEncoding(x.items[i], items[i]);
          }
          UnwrapList(x.items, items);
        case Tuple(fields) =>
          forall i | 0 <= i < |fields| ensures Unwrap(x.fields[i].value) == Plain(fields[i].value) {
            UnwrapInvertsEncoding(x.fields[i].value, fields[i].value);
          }
          UnwrapTuple(x.fields, fields);
        case _ =>
      }
      UnwrapNode(js.fields);
    }
  }

  // ----- what cvToJSON actually produces

  function Constructor(v: Cv): string {
    match v
    case Int(_) => "int"
    case UInt(_) => "uint"
    case BoolCv(_) => "bool"
    case Buffer(_) => "buff"
    case AsciiText(_) => "string-ascii"
    case Utf8Text(_) => "string-utf8"
    case Principal(_) => "principal"
    case NoneCv => "optional"
    case SomeCv(_) => "optional"
    case OkCv(_) => "response"
    case ErrCv(_) => "response"
    case List(_) => "list"
    case Tuple(_) => "tuple"
  }

  /** The whole recursive type signature: `uint`, `(optional none)`, `(tuple (a uint) ...)`. */
  function TypeString(v: Cv): string
    decreases v, 1
  {
    if v.Int? || v.UInt? || v.BoolCv? || v.Principal? then Constructor(v)
    else "(" + Constructor(v) + " " + Arguments(v) + ")"
  }

  function Arguments(v: Cv): string
    decreases v, 0
  {
    match v
    case Buffer(hex) => Decimal(|hex| / 2)
    case AsciiText(s) => Decimal(|s|)
    case Utf8Text(s) => Decimal(|s|)
    case NoneCv => "none"
    case SomeCv(x) => TypeString(x)
    case OkCv(x) => TypeString(x) + " UnknownType"
    case ErrCv(x) => "UnknownType " + TypeString(x)
    case List(items) => Decimal(|items|) + " " + (if items == [] then "UnknownType" else TypeString(items[0]))
    case Tuple(fields) => FieldTypes(fields)
    case _ => ""
  }

  function FieldTypes(fields: seq<CvField>): string
    decreases fields, 0
  {
    if fields == [] then "" else
      var first := "(" + fields[0].key + " " + TypeString(fields[0].value) + ")";
      if |fields| == 1 then first else first + " " + FieldTypes(fields[1..])
  }

  function Node(v: Cv): Js
    decreases v, 1
  {
    Obj([JsField("type", Str(TypeString(v))), JsField("value", Payload(v))]
        + (if v.OkCv? || v.ErrCv? then [JsField("success", Bool(v.OkCv?))] else []))
  }

  function Payload(v: Cv): Js
    decreases v, 0
  {
    match v
    case NoneCv => Null
    case SomeCv(x) => Node(x)
    case OkCv(x) => Node(x)
    case ErrCv(x) => Node(x)
    case List(items) => Arr(NodeItems(items))
    case Tuple(fields) => Obj(NodeFields(fields))
    case _ => Plain(v)
  }

  function NodeItems(items: seq<Cv>): (r: seq<Js>)
    ensures |r| == |items| && forall i | 0 <= i < |r| :: r[i] == Node(items[i])
    decreases items, 0
  {
    if items == [] then [] else [Node(items[0])] + NodeItems(items[1..])
  }

  function NodeFields(fields: seq<CvField>): (r: seq<JsField>)
    ensures |r| == |fields| && forall i | 0 <= i < |r| :: r[i] == JsField(fields[i].key, Node(fields[i].value))
    decreases fields, 0
  {
    if fields == [] then [] else [JsField(fields[0].key, Node(fields[0].value))] + NodeFields(fields[1..])
  }

  predicate IsHead(head: string) {
    forall i | 0 <= i < |head| :: !IsDelimiter(head[i]) && !('A' <= head[i] <= 'Z')
  }

  lemma {:induction false} UpToHead(head: string, rest: string)
    requires IsHead(head)
    ensures UpToDelimiter(head + " " + rest) == head
  {
    var s := head + " " + rest;
    if head != "" {
      assert s[1..] == head[1..] + " " + rest;
      UpToHead(head[1..], rest);
    }
  }

  lemma LowerHead(head: string)
    requires IsHead(head)
    ensures Lower(head) == head
  {
  }

  lemma KindOfSignature(head: string, rest: string)
    requires IsHead(head) && head != ""
    ensures Kind("(" + head + " " + rest + ")") == head
  {
    var s := "(" + head + " " + rest + ")";
    TrimNothing(s);
    assert s[1..] == head + " " + (rest + ")");
    UpToHead(head, rest + ")");
    LowerHead(head);
  }

  lemma KindOfWord(word: string)
    requires IsHead(word) && word != ""
    ensures Kind(word) == word
  {
    TrimNothing(word);
    LowerHead(word);
  }

  lemma ConstructorIsHead(v: Cv)
    ensures IsHead(Constructor(v)) && Constructor(v) != ""
  {
  }

  lemma KindOfType(v: Cv)
    ensures Kind(TypeString(v)) == Constructor(v)
  {
    hide Kind, IsHead, Arguments, Constructor;
    ConstructorIsHead(v);
    if v.Int? || v.UInt? || v.BoolCv? || v.Principal? {
      KindOfWord(Constructor(v));
    } else {
      KindOfSignature(Constructor(v), Arguments(v));
    }
  }

  lemma {:induction false} NodeEncodes(v: Cv)
    ensures Encodes(Node(v), v)
    decreases v
  {
    hide TypeString, Kind;
    KindOfType(v);
    NodeLookups(v);
    match v {
      case SomeCv(x) => NodeEncodes(x);
      case OkCv(x) => NodeEncodes(x);
      case ErrCv(x) => NodeEncodes(x);
      case List(items) =>
        forall i | 0 <= i < |items| ensures Encodes(Node(items[i]), items[i]) { NodeEncodes(items[i]); }
      case Tuple(fields) =>
        forall i | 0 <= i < |fields| ensures Encodes(Node(fields[i].value), fields[i].value)
          { NodeEncodes(fields[i].value); }
      case _ =>
    }
  }

  lemma NodeLookups(v: Cv)
    ensures var fields := Node(v).fields;
      && IndexOf(fields, "type") == 0 && fields[0].value == Str(TypeString(v))
      && IndexOf(fields, "value") == 1 && fields[1].value == Payload(v)
      && (v.OkCv? || v.ErrCv? ==> IndexOf(fields, "success") == 2 && fields[2].value == Bool(v.OkCv?))
  {
    hide TypeString, Payload;
    var fields := Node(v).fields;
    assert fields[1..][0] == fields[1];
    if v.OkCv? || v.ErrCv? {
      assert fields[1..][1..] == [fields[2]];
      assert IndexOf([fields[2]], "success") == 0;
      assert IndexOf(fields[1..], "success") == 1;
    }
  }

  /** Decoding inverts `cvToJSON` for every Clarity value. */
  lemma UnwrapInvertsCvToJson(v: Cv)
    ensures Unwrap(Node(v)) == Plain(v)
  {
    NodeEncodes(v);
    UnwrapInvertsEncoding(Node(v), v);
  }

  /** A response splits into its branch and payload; anything else is a bare value. */
  lemma ResponseSplits(v: Cv)
    ensures UnwrapResponse(Node(v)) == Response(!v.ErrCv?, Plain(v))
  {
    hide TypeString, Kind, Unwrap, Plain;
    KindOfType(v);
    NodeLookups(v);
    UnwrapInvertsCvToJson(v);
    if v.OkCv? || v.ErrCv? {
      UnwrapInvertsCvToJson(v.v);
      PlainOfResponse(v);
    }
  }

  lemma PlainOfResponse(v: Cv)
    requires v.OkCv? || v.ErrCv?
    ensures Plain(v) == Plain(v.v)
  {
  }

  // ----- decoding twice

  function Size(v: Js): nat
    decreases v
  {
    match v
    case Arr(items) => 1 + SizeItems(items)
    case Obj(fields) => 1 + SizeFields(fields)
    case _ => 1
  }

  function SizeItems(items: seq<Js>): nat
    decreases items
  {
    if items == [] then 0 else Size(items[0]) + SizeItems(items[1..])
  }

  function SizeFields(fields: seq<JsField>): nat
    decreases fields
  {
    if fields == [] then 0 else Size(fields[0].value) + SizeFields(fields[1..])
  }

  lemma {:induction false} FieldIsSmaller(fields: seq<JsField>, i: nat)
    requires i < |fields|
    ensures Size(fields[i].value) <= SizeFields(fields)
  {
    if i > 0 { FieldIsSmaller(fields[1..], i - 1); }
  }

  lemma {:induction false} UnwrapShrinks(v: Js)
    ensures Size(Unwrap(v)) <= Size(v)
    decreases v, 1
  {
    hide KindOf, HasStringType;
    match v {
      case Arr(items) => UnwrapItemsShrinks(items);
      case Obj(fields) =>
        UnwrapFieldsShrinks(fields);
        var at := IndexOf(fields, "value");
        if at >= 0 {
          FieldIsSmaller(fields, at);
          UnwrapShrinks(fields[at].value);
        }
      case _ =>
    }
  }

  lemma {:induction false} UnwrapItemsShrinks(items: seq<Js>)
    ensures SizeItems(UnwrapItems(items)) <= SizeItems(items)
    decreases items, 0
  {
    if items != [] {
      UnwrapShrinks(items[0]);
      UnwrapItemsShrinks(items[1..]);
      assert UnwrapItems(items)[1..] == UnwrapItems(items[1..]);
    }
  }

  lemma {:induction false} UnwrapFieldsShrinks(fields: seq<JsField>)
    ensures SizeFields(UnwrapFields(fields)) <= SizeFields(fields)
    decreases fields, 0
  {
    if fields != [] {
      UnwrapShrinks(fields[0].value);
      UnwrapFieldsShrinks(fields[1..]);
      assert UnwrapFields(fields)[1..] == UnwrapFields(fields[1..]);
    }
  }

  /** An object that decoding would take for a node. */
  predicate LooksLikeNode(fields: seq<JsField>) {
    HasStringType(fields)
    && (KindOf(fields) == "none" || KindOf(fields) == "optional" || IndexOf(fields, "value") >= 0)
  }

  predicate NoLookalikes(v: Js)
    decreases v
  {
    match v
    case Arr(items) => forall i | 0 <= i < |items| :: NoLookalikes(items[i])
    case Obj(fields) => !LooksLikeNode(fields) && forall i | 0 <= i < |fields| :: NoLookalikes(fields[i].value)
    case _ => true
  }

  /** Decoding leaves a plain value alone exactly when nothing in it looks like a node. */
  lemma {:induction false} FixedExactly(v: Js)
    ensures Unwrap(v) == v <==> NoLookalikes(v)
    decreases v
  {
    hide Kind;
    match v {
      case Arr(items) =>
        forall i | 0 <= i < |items| ensures Unwrap(items[i]) == items[i] <==> NoLookalikes(items[i]) {
          FixedExactly(items[i]);
        }
        FixedItems(items);
      case Obj(fields) =>
        forall i | 0 <= i < |fields|
          ensures Unwrap(fields[i].value) == fields[i].value <==> NoLookalikes(fields[i].value) {
          FixedExactly(fields[i].value);
        }
        FixedFields(fields);
        if LooksLikeNode(fields) { LookalikeCollapses(fields); }
      case _ =>
    }
  }

  lemma FixedItems(items: seq<Js>)
    ensures UnwrapItems(items) == items <==> forall i | 0 <= i < |items| :: Unwrap(items[i]) == items[i]
  {
    assert UnwrapItems(items) == items <==> forall i | 0 <= i < |items| :: UnwrapItems(items)[i] == items[i];
  }

  lemma FixedFields(fields: seq<JsField>)
    ensures UnwrapFields(fields) == fields
      <==> forall i | 0 <= i < |fields| :: Unwrap(fields[i].value) == fields[i].value
  {
    var r := UnwrapFields(fields);
    assert r == fields <==> forall i | 0 <= i < |fields| :: r[i] == fields[i];
    assert forall i | 0 <= i < |fields| :: r[i] == fields[i] <==> Unwrap(fields[i].value) == fields[i].value;
  }

  lemma LookalikeCollapses(fields: seq<JsField>)
    requires LooksLikeNode(fields)
    ensures Unwrap(Obj(fields)) != Obj(fields)
  {
    hide Kind;
    var at := IndexOf(fields, "value");
    if at >= 0 {
      FieldIsSmaller(fields, at);
      UnwrapShrinks(fields[at].value);
    }
  }

  /** No tuple has a field "type" that decodes to a string. */
  predicate NoStringTypes(v: Cv)
    decreases v
  {
    match v
    case SomeCv(x) => NoStringTypes(x)
    case OkCv(x) => NoStringTypes(x)
    case ErrCv(x) => NoStringTypes(x)
    case List(items) => forall i | 0 <= i < |items| :: NoStringTypes(items[i])
    case Tuple(fields) =>
      forall i | 0 <= i < |fields| ::
        NoStringTypes(fields[i].value) && !(fields[i].key == "type" && Plain(fields[i].value).Str?)
    case _ => true
  }

  lemma {:induction false} PlainHasNoLookalikes(v: Cv)
    requires NoStringTypes(v)
    ensures NoLookalikes(Plain(v))
    decreases v
  {
    hide Kind;
    match v {
      case SomeCv(x) => PlainHasNoLookalikes(x);
      case OkCv(x) => PlainHasNoLookalikes(x);
      case ErrCv(x) => PlainHasNoLookalikes(x);
      case List(items) =>
        forall i | 0 <= i < |items| ensures NoLookalikes(Plain(items[i])) { PlainHasNoLookalikes(items[i]); }
      case Tuple(fields) =>
        forall i | 0 <= i < |fields| ensures NoLookalikes(Plain(fields[i].value))
          { PlainHasNoLookalikes(fields[i].value); }
      case _ =>
    }
  }

  /** Decoding twice equals decoding once exactly when the decoded value has no lookalike of a node. */
  lemma DecodingTwice(v: Cv)
    ensures Unwrap(Unwrap(Node(v))) == Unwrap(Node(v)) <==> NoLookalikes(Plain(v))
    ensures NoStringTypes(v) ==> Unwrap(Unwrap(Node(v))) == Unwrap(Node(v))
  {
    hide Unwrap, NoLookalikes, Node, Plain, NoStringTypes;
    UnwrapInvertsCvToJson(v);
    FixedExactly(Plain(v));
    if NoStringTypes(v) { PlainHasNoLookalikes(v); }
  }

  /** It does fail for a tuple holding a type name and a value. */
  lemma LookalikeTuple()
    ensures var v := Tuple([CvField("type", AsciiText("uint")), CvField("value", UInt(5))]);
      !NoLookalikes(Plain(v))
  {
    var fields := [JsField("type", Str("uint")), JsField("value", Str(Decimal(5)))];
    var v := Tuple([CvField("type", AsciiText("uint")), CvField("value", UInt(5))]);
    assert PlainFields(v.fields) == fields;
    assert fields[1..][0] == fields[1] && IndexOf(fields[1..], "value") == 0;
    assert IndexOf(fields, "value") == 1;
  }

  // ----- records and signatures in general

  lemma {:induction false} UpToWord(word: string, rest: string)
    requires (forall c | c in word :: !IsDelimiter(c)) && (rest == "" || IsDelimiter(rest[0]))
    ensures UpToDelimiter(word + rest) == word
  {
    if word == "" {
      assert word + rest == rest;
    } else {
      assert word[0] in word && (word + rest)[1..] == word[1..] + rest;
      assert forall c | c in word[1..] :: c in word;
      UpToWord(word[1..], rest);
    }
  }

  /** The kind of a signature is the word after its parenthesis, up to the next space or parenthesis, in lower case. */
  lemma KindText(word: string, rest: string)
    requires (forall c | c in word :: !IsDelimiter(c)) && rest != ""
    requires IsDelimiter(rest[0]) && !IsSpace(rest[|rest| - 1])
    ensures Kind("(" + word + rest) == Lower(word)
  {
    var s := "(" + word + rest;
    assert s[|s| - 1] == rest[|rest| - 1];
    TrimNothing(s);
    assert s[1..] == word + rest;
    UpToWord(word, rest);
  }

  /** A bare word is its own kind, trimmed and in lower case. */
  lemma BareKindText(word: string)
    requires Trim(word) == "" || Trim(word)[0] != '('
    ensures Kind(word) == Lower(Trim(word))
  {
  }

  predicate DistinctFields(fields: seq<JsField>) {
    forall i, j | 0 <= i < j < |fields| :: fields[i].key != fields[j].key
  }

  /** Every field keeps its key and its place, and is decoded on its own. */
  predicate DecodedInPlace(fields: seq<JsField>, r: Js) {
    && r.Obj? && |r.fields| == |fields|
    && forall i | 0 <= i < |fields| :: r.fields[i].key == fields[i].key && r.fields[i].value == Unwrap(fields[i].value)
  }

  lemma IndexIs(fields: seq<JsField>, i: nat)
    requires DistinctFields(fields) && i < |fields|
    ensures IndexOf(fields, fields[i].key) == i
  {
    var j := IndexOf(fields, fields[i].key);
    assert j >= 0;
  }

  /** A record without a textual type is a map of fields. */
  lemma MapsUnwrap(fields: seq<JsField>)
    requires forall i | 0 <= i < |fields| :: fields[i].key == "type" ==> !fields[i].value.Str?
    ensures DecodedInPlace(fields, Unwrap(Obj(fields)))
  {
  }

  /** A record with a type and a value is a node: `none` and an optional null are null, all others their value. */
  lemma NodesUnwrap(fields: seq<JsField>, t: nat, v: nat)
    requires DistinctFields(fields) && t < |fields| && fields[t].key == "type" && fields[t].value.Str?
    requires v < |fields| && fields[v].key == "value"
    ensures var kind := Kind(fields[t].value.s);
      Unwrap(Obj(fields)) == if kind == "none" || (kind == "optional" && fields[v].value.Null?) then Null
                             else Unwrap(fields[v].value)
  {
    IndexIs(fields, t);
    IndexIs(fields, v);
  }

  /** Without a value, `none` and an optional are null and every other kind is a map of fields. */
  lemma ValuelessUnwrap(fields: seq<JsField>, t: nat)
    requires DistinctFields(fields) && t < |fields| && fields[t].key == "type" && fields[t].value.Str?
    requires forall i | 0 <= i < |fields| :: fields[i].key != "value"
    ensures var kind := Kind(fields[t].value.s);
      if kind == "none" || kind == "optional" then Unwrap(Obj(fields)) == Null
      else DecodedInPlace(fields, Unwrap(Obj(fields)))
  {
    IndexIs(fields, t);
  }

  /** A response is an error exactly when its success is false; whatever is no response is an ok value. */
  lemma ResponsesUnwrap(fields: seq<JsField>, t: nat, v: nat)
    requires DistinctFields(fields) && t < |fields| && fields[t].key == "type" && fields[t].value.Str?
    requires v < |fields| && fields[v].key == "value"
    ensures var kind, r := Kind(fields[t].value.s), UnwrapResponse(Obj(fields));
      if kind == "response" then
        && (r.ok <==> !exists i :: 0 <= i < |fields| && fields[i] == JsField("success", Bool(false)))
        && r.value == Unwrap(fields[v].value)
      else r == Response(true, Unwrap(Obj(fields)))
  {
    IndexIs(fields, t);
    IndexIs(fields, v);
    if i :| 0 <= i < |fields| && fields[i] == JsField("success", Bool(false)) { IndexIs(fields, i); }
  }
}
