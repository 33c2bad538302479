/**
 `parseVisitData` of src/screens/guard/qr/ScanQrScreen.jsx: turns the text of a
 scanned QR code into a visit descriptor. Text that decodes as JSON is returned as
 decoded; anything else is read as Spanish labelled lines ("Casa: 12"), and a ledger
 key is derived from the house and the visitor's name.

 `JSON.parse` is not modelled as a grammar: the caller supplies its outcome as
 `decoded` (`None` when it throws).
 */
module VisitPayload {
  import opened Wrappers
  import opened JsText

  /** The fields a visit descriptor may carry; an absent field is `None`. The key
      keeps `undefined` and `null` apart, because they index different ledger
      entries. */
  datatype Descriptor = Descriptor(
    houseId: Option<string>,
    visitorName: Option<string>,
    visitDate: Option<string>,
    vehicle: Option<string>,
    accessKey: Option<string>,
    peopleCount: Option<ParsedInt>,
    description: Option<string>,
    qrCode: KeyValue)

  /** The empty object `{}` the free-text branch starts from. */
  const Blank := Descriptor(None, None, None, None, None, None, None, Undefined)

  /** A decoded JSON value: an object, or anything else (number, string, array,
      boolean, null). */
  datatype Json = JObject(fields: Descriptor) | JOther

  /** The labelled fields of the free-text format. */
  datatype Field = House | Visitor | VisitDate | Vehicle | AccessKey | People | Description

  /** The label that introduces each field. */
  function Label(f: Field): (r: string)
    ensures |r| > 0
  {
    match f
    case House => "Casa:"
    case Visitor => "Visitante:"
    case VisitDate => "Fecha y Hora:"
    case Vehicle => "Vehículo:"
    case AccessKey => "Clave de acceso:"
    case People => "Personas:"
    case Description => "Descripción:"
  }

  /** The position of each label in the order the parser tries them. */
  function Rank(f: Field): nat {
    match f
    case House => 0
    case Visitor => 1
    case VisitDate => 2
    case Vehicle => 3
    case AccessKey => 4
    case People => 5
    case Description => 6
  }

  /** The field a line sets: the first label, in parser order, that the line
      contains anywhere; `None` when it contains no label. */
  function Classify(line: string): (r: Option<Field>)
    ensures r.Some? ==> Includes(line, Label(r.value))
    ensures r.Some? ==> forall g :: Rank(g) < Rank(r.value) ==> !Includes(line, Label(g))
    ensures r.None? ==> forall g :: !Includes(line, Label(g))
  {
    if Includes(line, Label(House)) then Some(House)
    else if Includes(line, Label(Visitor)) then Some(Visitor)
    else if Includes(line, Label(VisitDate)) then Some(VisitDate)
    else if Includes(line, Label(Vehicle)) then Some(Vehicle)
    else if Includes(line, Label(AccessKey)) then Some(AccessKey)
    else if Includes(line, Label(People)) then Some(People)
    else if Includes(line, Label(Description)) then Some(Description)
    else None
  }

  /** The value a labelled line gives its field: `line.split(label)[1].trim()`. */
  function LabelValue(line: string, f: Field): string
    requires Includes(line, Label(f))
  {
    Trim(SecondPiece(line, Label(f)))
  }

  /** The value of one field of a descriptor: text, or the people count. */
  datatype FieldValue = Text(text: Option<string>) | Count(count: Option<ParsedInt>)

  function Get(d: Descriptor, f: Field): FieldValue {
    match f
    case House => Text(d.houseId)
    case Visitor => Text(d.visitorName)
    case VisitDate => Text(d.visitDate)
    case Vehicle => Text(d.vehicle)
    case AccessKey => Text(d.accessKey)
    case People => Count(d.peopleCount)
    case Description => Text(d.description)
  }

  /** What a field holds after the last line that set it had value `v` (`None`: no
      line set it): the text itself, or for `Personas:` its `parseInt`. */
  function Expected(f: Field, v: Option<string>): FieldValue {
    if f == People then Count(if v.Some? then Some(ParseInt(v.value)) else None)
    else Text(v)
  }

  /** Stores a value in one field, leaving the others alone. */
  function Set(d: Descriptor, f: Field, v: FieldValue): (r: Descriptor)
    requires v.Count? <==> f == People
    ensures Get(r, f) == v
    ensures forall g :: g != f ==> Get(r, g) == Get(d, g)
    ensures r.qrCode == d.qrCode
  {
    match f
    case House => d.(houseId := v.text)
    case Visitor => d.(visitorName := v.text)
    case VisitDate => d.(visitDate := v.text)
    case Vehicle => d.(vehicle := v.text)
    case AccessKey => d.(accessKey := v.text)
    case People => d.(peopleCount := v.count)
    case Description => d.(description := v.text)
  }

  /** One pass of the line loop: a line with a label overwrites exactly the field of
      its first label and nothing else; a line without a label changes nothing. */
  function ApplyLine(d: Descriptor, line: string): (r: Descriptor)
    ensures Classify(line).None? ==> r == d
    ensures Classify(line).Some? ==>
              var f := Classify(line).value;
              && Get(r, f) == Expected(f, Some(LabelValue(line, f)))
              && forall g :: g != f ==> Get(r, g) == Get(d, g)
    ensures r.qrCode == d.qrCode
  {
    var c := Classify(line);
    if c.None? then d else Set(d, c.value, Expected(c.value, Some(LabelValue(line, c.value))))
  }

  /** The line loop, first line first. */
  function ParseLines(d: Descriptor, lines: seq<string>): (r: Descriptor)
    ensures r.qrCode == d.qrCode
    decreases |lines|
  {
    if |lines| == 0 then d else ParseLines(ApplyLine(d, lines[0]), lines[1..])
  }

  /** The value of the last line in `lines` that sets field `f`: the reference for
      "a later line with the same label overwrites an earlier one". */
  function LastValue(lines: seq<string>, f: Field): Option<string>
    decreases |lines|
  {
    if |lines| == 0 then None
    else
      var line := lines[|lines| - 1];
      if Classify(line) == Some(f) then Some(LabelValue(line, f))
      else LastValue(lines[..|lines| - 1], f)
  }

  /** `LastValue` seen from the front: a value set later wins over the first line. */
  lemma {:induction false} LastValueCons(lines: seq<string>, f: Field)
    requires |lines| > 0
    ensures LastValue(lines, f) ==
              if LastValue(lines[1..], f).Some? then LastValue(lines[1..], f)
              else if Classify(lines[0]) == Some(f) then Some(LabelValue(lines[0], f))
              else None
    decreases |lines|
  {
    if |lines| > 1 {
      var init := lines[..|lines| - 1];
      assert init[1..] == lines[1..][..|lines[1..]| - 1];
      assert init[0] == lines[0];
      LastValueCons(init, f);
    }
  }

  /** After the loop each field holds the value of the last line that set it, or
      what it held before when no line did. */
  lemma {:induction false} ParseLinesLastWins(d: Descriptor, lines: seq<string>, f: Field)
    ensures Get(ParseLines(d, lines), f) ==
              if LastValue(lines, f).Some? then Expected(f, LastValue(lines, f)) else Get(d, f)
    decreases |lines|
  {
    if |lines| > 0 {
      ParseLinesLastWins(ApplyLine(d, lines[0]), lines[1..], f);
      LastValueCons(lines, f);
    }
  }

  /** A line without any label can be dropped without changing the result. */
  lemma {:induction false} ParseLinesIgnoresUnlabelled(d: Descriptor, a: seq<string>, line: string, b: seq<string>)
    requires Classify(line).None?
    ensures ParseLines(d, a + [line] + b) == ParseLines(d, a + b)
    decreases |a|
  {
    if |a| == 0 {
      assert a + [line] + b == [line] + b;
      assert ([line] + b)[1..] == b;
      assert a + b == b;
    } else {
      assert (a + [line] + b)[0] == a[0] && (a + [line] + b)[1..] == a[1..] + [line] + b;
      assert (a + b)[0] == a[0] && (a + b)[1..] == a[1..] + b;
      ParseLinesIgnoresUnlabelled(ApplyLine(d, a[0]), a[1..], line, b);
    }
  }

  /** How a template literal shows a possibly absent value: `undefined` prints as
      "undefined". */
  function TemplateText(v: Option<string>): string {
    v.GetOr("undefined")
  }

  /** The ledger key of a free-text visit: house and visitor joined by '-', every
      whitespace run turned into '-', then lower-cased. It has no whitespace and no
      capitals. */
  function DeriveQrCode(houseId: Option<string>, visitorName: Option<string>): (r: string)
    ensures NoWhitespace(r)
    ensures NoUpper(r)
  {
    NormaliseKey(TemplateText(houseId) + "-" + TemplateText(visitorName))
  }

  /** `.replace(/\s+/g, "-").toLowerCase()`: every whitespace run becomes '-', then
      capitals become lower case. The result has no whitespace and no capitals, and
      text that has neither is left as it is. */
  function NormaliseKey(s: string): (r: string)
    ensures NoWhitespace(r) && NoUpper(r)
    ensures NoWhitespace(s) && NoUpper(s) ==> r == s
  {
    var replaced := ReplaceWhitespaceRuns(s);
    var r := Lower(replaced);
    assert forall i :: 0 <= i < |r| ==> !IsWhitespace(r[i]) by {
      forall i | 0 <= i < |r| ensures !IsWhitespace(r[i]) {
        assert r[i] == LowerChar(replaced[i]);
      }
    }
    r
  }

  /** The free-text branch: run the line loop over the lines of `text`, then add the
      derived key. */
  function ParseFreeText(text: string): Descriptor {
    var d := ParseLines(Blank, Split(text, '\n'));
    d.(qrCode := Str(DeriveQrCode(d.houseId, d.visitorName)))
  }

  /** `parseVisitData`: a value `JSON.parse` accepted is returned exactly as decoded,
      any `qrCode` it carries included. Otherwise the result is an object whose every
      labelled field holds the value of the last line of `text` with that label, and
      whose `qrCode` is derived from the last house and visitor lines. */
  function ParseVisitData(text: string, decoded: Option<Json>): (r: Json)
    ensures decoded.Some? ==> r == decoded.value
    ensures decoded.None? ==>
              && r.JObject?
              && (forall f :: Get(r.fields, f) == Expected(f, LastValue(Split(text, '\n'), f)))
              && r.fields.qrCode ==
                   Str(DeriveQrCode(LastValue(Split(text, '\n'), House), LastValue(Split(text, '\n'), Visitor)))
  {
    match decoded
    case Some(value) => value
    case None =>
      var lines := Split(text, '\n');
      var d := ParseFreeText(text);
      assert forall f :: Get(d, f) == Expected(f, LastValue(lines, f)) by {
        forall f ensures Get(d, f) == Expected(f, LastValue(lines, f)) {
          ParseLinesLastWins(Blank, lines, f);
        }
      }
      assert Text(d.houseId) == Get(d, House) && Text(d.visitorName) == Get(d, Visitor);
      JObject(d)
  }

  /** The key of visitor "Ana López" at house "12" is "12-ana-lópez": the space
      becomes '-', the capitals (accented ones included) become lower case. */
  lemma DeriveQrCodeExample()
    ensures DeriveQrCode(Some("12"), Some("Ana López")) == "12-ana-lópez"
  {
    ReplaceExample();
    LowerExample();
  }

  lemma ReplaceExample()
    ensures ReplaceWhitespaceRuns("12" + "-" + "Ana López") == "12-Ana-López"
  {
    ExampleWordsHaveNoWhitespace();
    ReplaceOneSpace("12-Ana", "López", "12" + "-" + "Ana López", "12-Ana-López");
  }

  /** Two whitespace-free words joined by a single space become the words joined by
      '-'. */
  lemma ReplaceOneSpace(a: string, b: string, s: string, r: string)
    requires NoWhitespace(a) && NoWhitespace(b)
    requires s == a + " " + b && r == a + "-" + b
    ensures ReplaceWhitespaceRuns(s) == r
  {
    assert AllWhitespace(" ");
    ReplaceWhitespaceRunsSplits(a, " ", b);
  }

  lemma ExampleWordsHaveNoWhitespace()
    ensures NoWhitespace("12-Ana") && NoWhitespace("López")
  {
    var a := "12-Ana";
    forall i | 0 <= i < |a| ensures !IsWhitespace(a[i]) {
    }
    var b := "López";
    forall i | 0 <= i < |b| ensures !IsWhitespace(b[i]) {
    }
  }

  lemma LowerExample()
    ensures Lower("12-Ana-López") == "12-ana-lópez"
  {
    var s := "12-Ana-López";
    var r := Lower(s);
    assert |r| == |"12-ana-lópez"|;
    forall i | 0 <= i < |r| ensures r[i] == "12-ana-lópez"[i] {
      assert r[i] == LowerChar(s[i]);
    }
  }

  /** The key does not tell the two parts apart: a '-' inside the house id and the
      '-' that joins the parts look the same, so two different visits can share a
      key and with it a ledger entry. */
  lemma DeriveQrCodeSeparatorCollision(a: string, b: string, c: string)
    ensures DeriveQrCode(Some(a + "-" + b), Some(c)) == DeriveQrCode(Some(a), Some(b + "-" + c))
  {
    var x := TemplateText(Some(a + "-" + b)) + "-" + TemplateText(Some(c));
    var y := TemplateText(Some(a)) + "-" + TemplateText(Some(b + "-" + c));
    JoinRegroups(a, b, c, x, y);
    assert NormaliseKey(x) == NormaliseKey(y);
  }

  /** Moving the middle '-' from one side of the join to the other gives the same text. */
  lemma JoinRegroups(a: string, b: string, c: string, x: string, y: string)
    requires x == (a + "-" + b) + "-" + c && y == a + "-" + (b + "-" + c)
    ensures x == y
  {
  }

  /** House "1-2" with visitor "a" and house "1" with visitor "2-a" get the same key. */
  lemma DeriveQrCodeCollides()
    ensures DeriveQrCode(Some("1-2"), Some("a")) == DeriveQrCode(Some("1"), Some("2-a"))
  {
    var a, b, c := "1", "2", "a";
    assert a + "-" + b == "1-2" && b + "-" + c == "2-a";
    DeriveQrCodeSeparatorCollision(a, b, c);
  }

  /** One part of a key: whitespace runs turned into '-', then lower-cased. */
  function KeyPart(v: Option<string>): (r: string)
    ensures NoWhitespace(r) && NoUpper(r)
    ensures NoWhitespace(TemplateText(v)) && NoUpper(TemplateText(v)) ==> r == TemplateText(v)
  {
    NormaliseKey(TemplateText(v))
  }

  /** How `Escape` writes one character: '-' doubled, anything else as itself. */
  function EscapeChar(c: char): string {
    if c == '-' then "--" else [c]
  }

  /** Doubles every '-', so that in the escaped text a '-' followed by anything but
      '-' can only be the end marker of a key part. */
  function Escape(s: string): (r: string)
    ensures NoWhitespace(s) ==> NoWhitespace(r)
    ensures NoUpper(s) ==> NoUpper(r)
    decreases |s|
  {
    if |s| == 0 then "" else EscapeChar(s[0]) + Escape(s[1..])
  }

  /** A key derivation without the collision: the house part is escaped and closed
      by "-+", so the key determines both normalised parts. Like `DeriveQrCode`, it
      has no whitespace and no capitals. */
  function DeriveQrCodeUnique(houseId: Option<string>, visitorName: Option<string>): (r: string)
    ensures NoWhitespace(r)
    ensures NoUpper(r)
  {
    var e, k := Escape(KeyPart(houseId)), KeyPart(visitorName);
    CleanJoin(e, "-+", k);
    e + "-+" + k
  }

  /** Joining three texts without whitespace or capitals, the middle one the end
      marker, gives text without either. */
  lemma CleanJoin(x: string, m: string, z: string)
    requires NoWhitespace(x) && NoUpper(x) && NoWhitespace(z) && NoUpper(z)
    requires m == "-+"
    ensures NoWhitespace(x + m + z) && NoUpper(x + m + z)
  {
    var j := x + m + z;
    forall i | 0 <= i < |j| ensures !IsWhitespace(j[i]) && !IsUpper(j[i]) {
      if i < |x| {
        assert j[i] == x[i];
      } else if i < |x| + 2 {
        assert j[i] == m[i - |x|];
      } else {
        assert j[i] == z[i - |x| - 2];
      }
    }
  }

  /** Splitting off the first escaped character of a key. */
  lemma EscapedJoinCons(a: string, b: string)
    requires |a| > 0
    ensures Escape(a) + "-+" + b == EscapeChar(a[0]) + (Escape(a[1..]) + "-+" + b)
  {
    var c, t := EscapeChar(a[0]), Escape(a[1..]);
    assert Escape(a) == c + t;
    Regroup(c, t, "-+", b);
  }

  lemma Regroup(c: string, t: string, m: string, b: string)
    ensures c + t + m + b == c + (t + m + b)
  {
  }

  /** A non-empty escaped part does not start with the end marker "-+". */
  lemma EscapedStartsWithPart(a: string, rest: string, k: string)
    requires |a| > 0 && |k| >= 2 && k == EscapeChar(a[0]) + rest
    ensures k[..2] != "-+"
  {
    if a[0] == '-' {
      assert k[1] == '-';
    } else {
      assert k[0] == a[0];
    }
  }

  /** An escaped part closed by "-+" can be read back: equal keys have equal parts. */
  lemma {:induction false} EscapedJoinInjective(a1: string, b1: string, a2: string, b2: string)
    requires Escape(a1) + "-+" + b1 == Escape(a2) + "-+" + b2
    ensures a1 == a2 && b1 == b2
    decreases |a1|
  {
    var k := Escape(a1) + "-+" + b1;
    if |a1| == 0 || |a2| == 0 {
      if |a1| == 0 && |a2| == 0 {
        assert k == "-+" + b1 == "-+" + b2;
        assert b1 == k[2..] == b2;
      } else if |a1| == 0 {
        assert k == "-+" + b1;
        EscapedJoinCons(a2, b2);
        EscapedStartsWithPart(a2, Escape(a2[1..]) + "-+" + b2, k);
        assert false;
      } else {
        assert k == "-+" + b2;
        EscapedJoinCons(a1, b1);
        EscapedStartsWithPart(a1, Escape(a1[1..]) + "-+" + b1, k);
        assert false;
      }
    } else {
      EscapedJoinCons(a1, b1);
      EscapedJoinCons(a2, b2);
      var h1, h2 := EscapeChar(a1[0]), EscapeChar(a2[0]);
      assert k[0] == h1[0] == h2[0];
      assert a1[0] == a2[0] by {
        if a1[0] == '-' {
          assert a2[0] == '-';
        } else {
          assert a2[0] != '-';
        }
      }
      assert k[|h1|..] == Escape(a1[1..]) + "-+" + b1 == Escape(a2[1..]) + "-+" + b2;
      EscapedJoinInjective(a1[1..], b1, a2[1..], b2);
      assert a1 == [a1[0]] + a1[1..] && a2 == [a2[0]] + a2[1..];
    }
  }

  /** Two visits share a corrected key exactly when their normalised house ids and
      visitor names agree. */
  lemma DeriveQrCodeUniqueInjective(h1: Option<string>, v1: Option<string>, h2: Option<string>, v2: Option<string>)
    ensures DeriveQrCodeUnique(h1, v1) == DeriveQrCodeUnique(h2, v2)
            <==> KeyPart(h1) == KeyPart(h2) && KeyPart(v1) == KeyPart(v2)
  {
    if DeriveQrCodeUnique(h1, v1) == DeriveQrCodeUnique(h2, v2) {
      EscapedJoinInjective(KeyPart(h1), KeyPart(v1), KeyPart(h2), KeyPart(v2));
    }
  }

  /** The two visits that collide under `DeriveQrCode` get different corrected keys. */
  lemma DeriveQrCodeUniqueSeparates()
    ensures DeriveQrCodeUnique(Some("1-2"), Some("a")) != DeriveQrCodeUnique(Some("1"), Some("2-a"))
  {
    var x, y := "1-2", "1";
    forall i | 0 <= i < |x| ensures !IsWhitespace(x[i]) && !IsUpper(x[i]) {
    }
    assert NoWhitespace(y) && NoUpper(y);
    assert KeyPart(Some(x)) == x != y == KeyPart(Some(y));
    DeriveQrCodeUniqueInjective(Some(x), Some("a"), Some(y), Some("2-a"));
  }

  /** A line made of a label, one space and a trimmed value that does not repeat the
      label gives that value. */
  lemma ValueOfLabelledLine(tag: string, v: string)
    requires |tag| > 0
    requires |v| > 0 && !IsWhitespace(v[0]) && !IsWhitespace(v[|v| - 1])
    requires !Includes(" " + v, tag)
    ensures IndexOf(tag + " " + v, tag) == Some(0)
    ensures Trim(SecondPiece(tag + " " + v, tag)) == v
  {
    var line := tag + " " + v;
    assert line[0..|tag|] == tag;
    assert IndexOf(line, tag) == Some(0);
    assert line[|tag|..] == " " + v;
    assert SecondPiece(line, tag) == " " + v;
    TrimStartDropsRun(" ", v);
    assert TrimEnd(v) == v;
  }

  /** Two descriptors that agree on every field are equal. */
  lemma DescriptorsAgree(d: Descriptor, e: Descriptor)
    requires forall f :: Get(d, f) == Get(e, f)
    requires d.qrCode == e.qrCode
    ensures d == e
  {
    assert Get(d, House) == Get(e, House) && Get(d, Visitor) == Get(e, Visitor);
    assert Get(d, VisitDate) == Get(e, VisitDate) && Get(d, Vehicle) == Get(e, Vehicle);
    assert Get(d, AccessKey) == Get(e, AccessKey) && Get(d, People) == Get(e, People);
    assert Get(d, Description) == Get(e, Description);
  }

  /** The lines of a two-line labelled text for house `h` and visitor `v`. */
  function PassLines(h: string, v: string): seq<string> {
    [Label(House) + " " + h, Label(Visitor) + " " + v, ""]
  }

  /** A two-line pass text for house `h` and visitor `v`, in the labelled format the
      parser reads. */
  function PassText(h: string, v: string): string {
    Label(House) + " " + h + "\n" + Label(Visitor) + " " + v + "\n"
  }

  lemma {:induction false} SplitPass(h: string, v: string)
    requires '\n' !in h && '\n' !in v
    ensures Split(PassText(h, v), '\n') == PassLines(h, v)
  {
    var lines := PassLines(h, v);
    var l0, l1, l2 := lines[0], lines[1], lines[2];
    assert Join(lines, '\n') == PassText(h, v) by {
      assert lines[1..] == [l1, l2] && lines[1..][1..] == [l2];
      assert Join([l1, l2], '\n') == l1 + "\n";
    }
    assert '\n' !in Label(House) + " " && '\n' !in Label(Visitor) + " ";
    assert l0 == (Label(House) + " ") + h && l1 == (Label(Visitor) + " ") + v;
    SplitJoin(lines, '\n');
  }

  lemma {:induction false} PassLastValues(h: string, v: string, f: Field)
    requires |h| > 0 && !IsWhitespace(h[0]) && !IsWhitespace(h[|h| - 1])
    requires !Includes(" " + h, Label(House))
    requires |v| > 0 && !IsWhitespace(v[0]) && !IsWhitespace(v[|v| - 1])
    requires !Includes(" " + v, Label(Visitor))
    requires !Includes(Label(Visitor) + " " + v, Label(House))
    ensures LastValue(PassLines(h, v), f) == if f == House then Some(h) else if f == Visitor then Some(v) else None
  {
    var lines := PassLines(h, v);
    ClassifyPassLines(h, v);
    LastValueOfThree(lines[0], lines[1], lines[2], f);
    assert lines == [lines[0], lines[1], lines[2]];
  }

  lemma LastValueOfThree(a: string, b: string, c: string, f: Field)
    requires Classify(a) == Some(House) && Classify(b) == Some(Visitor) && Classify(c) == None
    ensures LastValue([a, b, c], f) ==
              if f == House then Some(LabelValue(a, House))
              else if f == Visitor then Some(LabelValue(b, Visitor))
              else None
  {
    assert [a, b, c][..2] == [a, b] && [a, b][..1] == [a] && [a][..0] == [];
    assert LastValue([a, b, c], f) == LastValue([a, b], f);
    if f != Visitor {
      assert LastValue([a, b], f) == LastValue([a], f);
      if f != House {
        assert LastValue([a], f) == LastValue([], f);
      }
    }
  }

  lemma ClassifyPassLines(h: string, v: string)
    requires |h| > 0 && !IsWhitespace(h[0]) && !IsWhitespace(h[|h| - 1])
    requires !Includes(" " + h, Label(House))
    requires |v| > 0 && !IsWhitespace(v[0]) && !IsWhitespace(v[|v| - 1])
    requires !Includes(" " + v, Label(Visitor))
    requires !Includes(Label(Visitor) + " " + v, Label(House))
    ensures var lines := PassLines(h, v);
            && Classify(lines[0]) == Some(House) && LabelValue(lines[0], House) == h
            && Classify(lines[1]) == Some(Visitor) && LabelValue(lines[1], Visitor) == v
            && Classify(lines[2]) == None
  {
    ValueOfLabelledLine(Label(House), h);
    ValueOfLabelledLine(Label(Visitor), v);
    EmptyLineHasNoLabel();
  }

  lemma EmptyLineHasNoLabel()
    ensures Classify("") == None
  {
    forall f ensures !Includes("", Label(f)) {
      assert IndexFrom("", Label(f), 0) == None;
    }
  }

  /** The two-line labelled text "Casa: <house>\nVisitante: <name>\n" parses to exactly that
      house and name, no other field, and the key derived from the two, as long as
      the values are trimmed, single-line and do not contain a label the parser would
      try first. */
  lemma {:induction false} ParseHouseAndVisitor(h: string, v: string)
    requires |h| > 0 && !IsWhitespace(h[0]) && !IsWhitespace(h[|h| - 1]) && '\n' !in h
    requires !Includes(" " + h, Label(House))
    requires |v| > 0 && !IsWhitespace(v[0]) && !IsWhitespace(v[|v| - 1]) && '\n' !in v
    requires !Includes(" " + v, Label(Visitor))
    requires !Includes(Label(Visitor) + " " + v, Label(House))
    ensures ParseVisitData(PassText(h, v), None)
            == JObject(Blank.(houseId := Some(h), visitorName := Some(v), qrCode := Str(DeriveQrCode(Some(h), Some(v)))))
  {
    var text := PassText(h, v);
    var expected := Blank.(houseId := Some(h), visitorName := Some(v), qrCode := Str(DeriveQrCode(Some(h), Some(v))));
    PassFieldsExpected(h, v, text, expected);
    FreeTextParse(text, expected);
  }

  /** The descriptor of the pass is the one the free-text parse promises. */
  lemma PassFieldsExpected(h: string, v: string, text: string, e: Descriptor)
    requires |h| > 0 && !IsWhitespace(h[0]) && !IsWhitespace(h[|h| - 1]) && '\n' !in h
    requires !Includes(" " + h, Label(House))
    requires |v| > 0 && !IsWhitespace(v[0]) && !IsWhitespace(v[|v| - 1]) && '\n' !in v
    requires !Includes(" " + v, Label(Visitor))
    requires !Includes(Label(Visitor) + " " + v, Label(House))
    requires text == PassText(h, v)
    requires e == Blank.(houseId := Some(h), visitorName := Some(v), qrCode := Str(DeriveQrCode(Some(h), Some(v))))
    ensures forall f :: Get(e, f) == Expected(f, LastValue(Split(text, '\n'), f))
    ensures e.qrCode == Str(DeriveQrCode(LastValue(Split(text, '\n'), House), LastValue(Split(text, '\n'), Visitor)))
  {
    var lines := Split(text, '\n');
    assert lines == PassLines(h, v) by {
      SplitPass(h, v);
    }
    forall f ensures Get(e, f) == Expected(f, LastValue(lines, f)) {
      PassLastValues(h, v, f);
      PassFieldValue(h, v, e, f);
    }
    assert LastValue(lines, House) == Some(h) by {
      PassLastValues(h, v, House);
    }
    assert LastValue(lines, Visitor) == Some(v) by {
      PassLastValues(h, v, Visitor);
    }
  }

  /** The fields of the descriptor the pass should give. */
  lemma PassFieldValue(h: string, v: string, e: Descriptor, f: Field)
    requires e == Blank.(houseId := Some(h), visitorName := Some(v), qrCode := Str(DeriveQrCode(Some(h), Some(v))))
    ensures Get(e, f) == Expected(f, if f == House then Some(h) else if f == Visitor then Some(v) else None)
  {
  }

  /** A descriptor that holds, field by field, what the line loop promises for `text`
      and the key derived from its house and visitor is what `parseVisitData` returns
      for `text` when it is not JSON. */
  lemma FreeTextParse(text: string, e: Descriptor)
    requires forall f :: Get(e, f) == Expected(f, LastValue(Split(text, '\n'), f))
    requires e.qrCode == Str(DeriveQrCode(LastValue(Split(text, '\n'), House), LastValue(Split(text, '\n'), Visitor)))
    ensures ParseVisitData(text, None) == JObject(e)
  {
    DescriptorsAgree(ParseVisitData(text, None).fields, e);
  }

  /** The pass "Casa: 12\nVisitante: Ana López\n", which is not JSON, is read as house
      "12" and visitor "Ana López", with ledger key "12-ana-lópez". */
  lemma ParseExample(house: string, visitor: string)
    requires house == "12" && visitor == "Ana López"
    ensures var r := ParseVisitData(PassText(house, visitor), None);
            && r.JObject?
            && r.fields.houseId == Some("12")
            && r.fields.visitorName == Some("Ana López")
            && r.fields.qrCode == Str("12-ana-lópez")
  {
    ExampleValuesRepeatNoLabel();
    ExampleValuesAreTrimmed();
    ParseHouseAndVisitor(house, visitor);
    DeriveQrCodeExample();
  }

  lemma ExampleValuesAreTrimmed()
    ensures !IsWhitespace("12"[0]) && !IsWhitespace("12"[1]) && '\n' !in "12"
    ensures !IsWhitespace("Ana López"[0]) && !IsWhitespace("Ana López"[8]) && '\n' !in "Ana López"
  {
  }

  lemma ExampleValuesRepeatNoLabel()
    ensures !Includes(" " + "12", Label(House))
    ensures !Includes(" " + "Ana López", Label(Visitor))
    ensures !Includes(Label(Visitor) + " " + "Ana López", Label(House))
  {
    var rest := " " + "Ana López";
    assert rest[0..10][0] != "Visitante:"[0];
    assert !OccursAt(rest, "Visitante:", 0);
    var line := Label(Visitor) + " " + "Ana López";
    assert forall j :: 0 <= j < |line| ==> line[j] != 'C';
    forall j | 0 <= j ensures !OccursAt(line, "Casa:", j) {
      if j + 5 <= |line| {
        assert line[j..j + 5][0] == line[j];
      }
    }
  }
}
