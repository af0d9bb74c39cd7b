/** DroidDynaSearch/src/main/java/phd/research/appium/AppiumManager.java: the description
    of a screen element, the name expansion of `getCurrentActivity`, the scan of the
    `dumpsys activity` output in `findFragmentsOnScreen`, and the lazily created driver.
    The driver's answers (current activity and package, elements, shell output) are inputs. */
module AppiumManager {
  import opened Wrappers
  import opened JStrings

  // ---------------------------------------------------------------- elements

  /** `org.openqa.selenium.Point` */
  datatype Point = Point(x: int, y: int)

  /** `Point.toString()`: "(x, y)". */
  function PointText(p: Point): (s: string)
    ensures |s| > 0 && s[0] == '(' && s[|s| - 1] == ')'
  {
    "(" + IntToString(p.x) + ", " + IntToString(p.y) + ")"
  }

  /** What the model needs of an `AndroidElement`: its attributes (a missing key reads as
      null), tag name, text, location and centre. */
  datatype Element = Element(attributes: map<string, string>, tagName: Option<string>, text: Option<string>,
                             location: Point, center: Point)

  /** `element.getAttribute(key)` */
  function Attribute(e: Element, key: string): Option<string> {
    if key in e.attributes then Some(e.attributes[key]) else None
  }

  // ---------------------------------------------------------------- getElementDescription

  /** One `appendDescription` call: the label and the value (None for null). */
  datatype Field = Field(valueId: string, value: Option<string>)

  /** The eight fields of a description, in the order they are appended. */
  function Fields(e: Element): (fs: seq<Field>)
    ensures |fs| == 8
    ensures fs[5].value.Some? && fs[5].value.value != "" && fs[6].value.Some? && fs[6].value.value != ""
  {
    [Field("name", Attribute(e, "name")), Field("resource-id", Attribute(e, "resource-id")),
     Field("tag", e.tagName), Field("text", e.text), Field("content-desc", Attribute(e, "content-desc")),
     Field("location", Some(PointText(e.location))), Field("centre", Some(PointText(e.center))),
     Field("class", Attribute(e, "class"))]
  }

  /** A value `appendDescription` writes: neither null nor empty. */
  predicate Present(value: Option<string>) {
    value.Some? && value.value != ""
  }

  /** The text of one entry. */
  function Entry(f: Field): string
    requires Present(f.value)
  {
    f.valueId + ": " + f.value.value
  }

  /** `appendDescription(builder, valueId, value)` on the builder's text: a present value is
      appended as "valueId: value", preceded by ", " unless the text ends with '['. */
  function Appended(text: string, f: Field): (r: string)
    requires |text| > 0
    ensures |r| > 0
  {
    if !Present(f.value) then text
    else (if text[|text| - 1] != '[' then text + ", " else text) + Entry(f)
  }

  /** The builder's text after appending `fields` to `start`. */
  function Built(start: string, fields: seq<Field>): (r: string)
    requires |start| > 0
    ensures |r| > 0
    decreases |fields|
  {
    if fields == [] then start else Appended(Built(start, fields[..|fields| - 1]), fields[|fields| - 1])
  }

  lemma BuiltStep(start: string, fields: seq<Field>, i: nat)
    requires |start| > 0 && i < |fields|
    ensures Built(start, fields[..i + 1]) == Appended(Built(start, fields[..i]), fields[i])
  {
    assert fields[..i + 1][..i] == fields[..i];
  }

  /** `getElementDescription(element)` as written. */
  function Description(e: Element): string {
    Built("[", Fields(e)) + "]"
  }

  /** The entries of the present fields, in order. */
  function Entries(fields: seq<Field>): seq<string>
    decreases |fields|
  {
    if fields == [] then []
    else
      var f := fields[|fields| - 1];
      Entries(fields[..|fields| - 1]) + (if Present(f.value) then [Entry(f)] else [])
  }

  /** Entries separated by ", ". */
  function CommaJoined(entries: seq<string>): string
    decreases |entries|
  {
    if entries == [] then ""
    else if |entries| == 1 then entries[0]
    else CommaJoined(entries[..|entries| - 1]) + ", " + entries[|entries| - 1]
  }

  /** No present value ends with '['. */
  predicate NoBracketEnd(fields: seq<Field>) {
    forall i | 0 <= i < |fields| :: Present(fields[i].value) ==> fields[i].value.value[|fields[i].value.value| - 1] != '['
  }

  /** When no value ends with '[', the description is "[", the present entries in order
      separated by ", ", and "]": the first entry has no separator and every later one has. */
  lemma {:induction false} BuiltJoins(fields: seq<Field>)
    requires NoBracketEnd(fields)
    ensures Built("[", fields) == "[" + CommaJoined(Entries(fields))
    ensures CommaJoined(Entries(fields)) == "" <==> Entries(fields) == []
    ensures CommaJoined(Entries(fields)) != "" ==> CommaJoined(Entries(fields))[|CommaJoined(Entries(fields))| - 1] != '['
    decreases |fields|
  {
    if fields != [] {
      var init, f := fields[..|fields| - 1], fields[|fields| - 1];
      NoBracketEndInit(fields);
      BuiltJoins(init);
      JoinsStep(Entries(init), f);
    }
  }

  lemma NoBracketEndInit(fields: seq<Field>)
    requires fields != [] && NoBracketEnd(fields)
    ensures NoBracketEnd(fields[..|fields| - 1])
    ensures var v := fields[|fields| - 1].value; Present(v) ==> v.value[|v.value| - 1] != '['
  {
    var init := fields[..|fields| - 1];
    forall i | 0 <= i < |init| ensures Present(init[i].value) ==> init[i].value.value[|init[i].value.value| - 1] != '[' {
      assert init[i] == fields[i];
    }
  }

  /** One field more keeps the description equal to "[" and the joined entries. */
  lemma JoinsStep(es: seq<string>, f: Field)
    requires CommaJoined(es) == "" <==> es == []
    requires CommaJoined(es) != "" ==> CommaJoined(es)[|CommaJoined(es)| - 1] != '['
    requires Present(f.value) ==> f.value.value[|f.value.value| - 1] != '['
    ensures var es' := es + (if Present(f.value) then [Entry(f)] else []);
      Appended("[" + CommaJoined(es), f) == "[" + CommaJoined(es')
      && (CommaJoined(es') == "" <==> es' == [])
      && (CommaJoined(es') != "" ==> CommaJoined(es')[|CommaJoined(es')| - 1] != '[')
  {
    if Present(f.value) {
      var entry := Entry(f);
      var v := f.value.value;
      assert entry[|entry| - 1] == v[|v| - 1];
      JoinedStep(es, entry);
      AppendedJoined(es, f);
    } else {
      assert es + [] == es;
    }
  }

  /** Joining one more entry adds ", " and the entry, or just the entry to an empty list. */
  lemma JoinedStep(es: seq<string>, entry: string)
    requires |entry| > 0
    ensures var j := CommaJoined(es + [entry]);
      j == (if es == [] then entry else CommaJoined(es) + ", " + entry) && j != "" && j[|j| - 1] == entry[|entry| - 1]
  {
    assert (es + [entry])[..|es|] == es;
  }

  /** Appending a present field to "[" and the joined entries joins its entry too. */
  lemma AppendedJoined(es: seq<string>, f: Field)
    requires Present(f.value)
    requires CommaJoined(es) == "" <==> es == []
    requires CommaJoined(es) != "" ==> CommaJoined(es)[|CommaJoined(es)| - 1] != '['
    requires |Entry(f)| > 0
    ensures Appended("[" + CommaJoined(es), f) == "[" + CommaJoined(es + [Entry(f)])
  {
    JoinedStep(es, Entry(f));
    var text := "[" + CommaJoined(es);
    assert text[|text| - 1] == (if es == [] then '[' else CommaJoined(es)[|CommaJoined(es)| - 1]);
  }

  lemma DescriptionJoins(e: Element)
    requires NoBracketEnd(Fields(e))
    ensures Description(e) == "[" + CommaJoined(Entries(Fields(e))) + "]"
  {
    BuiltJoins(Fields(e));
  }

  /** The element of the counterexample: its name ends with '['. */
  function BracketElement(): Element {
    Element(map["name" := "a["], None, None, Point(0, 0), Point(0, 0))
  }

  lemma BracketElementFields(loc: string, cen: string)
    requires loc == "location: " + PointText(Point(0, 0)) && cen == "centre: " + PointText(Point(0, 0))
    ensures var fs := Fields(BracketElement());
      fs[0] == Field("name", Some("a[")) && Entry(fs[0]) == "name: a["
      && !Present(fs[1].value) && !Present(fs[2].value) && !Present(fs[3].value) && !Present(fs[4].value)
      && Entry(fs[5]) == loc && Entry(fs[6]) == cen && !Present(fs[7].value)
  {
  }

  lemma BracketElementBuilt(loc: string, cen: string)
    requires loc == "location: " + PointText(Point(0, 0)) && cen == "centre: " + PointText(Point(0, 0))
    ensures Built("[", Fields(BracketElement())) == "[name: a[" + loc + ", " + cen
  {
    var fs := Fields(BracketElement());
    BracketElementFields(loc, cen);
    assert fs[..1][..0] == [] && fs[..1][0] == fs[0];
    assert Built("[", fs[..1]) == "[name: a[";
    assert fs[..2][..1] == fs[..1] && fs[..2][1] == fs[1];
    assert Built("[", fs[..2]) == "[name: a[";
    assert fs[..3][..2] == fs[..2] && fs[..3][2] == fs[2];
    assert Built("[", fs[..3]) == "[name: a[";
    assert fs[..4][..3] == fs[..3] && fs[..4][3] == fs[3];
    assert Built("[", fs[..4]) == "[name: a[";
    assert fs[..5][..4] == fs[..4] && fs[..5][4] == fs[4];
    assert Built("[", fs[..5]) == "[name: a[";
    assert fs[..6][..5] == fs[..5] && fs[..6][5] == fs[5];
    assert Built("[", fs[..6]) == "[name: a[" + loc;
    assert fs[..7][..6] == fs[..6] && fs[..8] == fs && fs[..8][..7] == fs[..7];
  }

  lemma BracketElementEntries(loc: string, cen: string)
    requires loc == "location: " + PointText(Point(0, 0)) && cen == "centre: " + PointText(Point(0, 0))
    ensures Entries(Fields(BracketElement())) == ["name: a[", loc, cen]
  {
    var fs := Fields(BracketElement());
    BracketElementFields(loc, cen);
    assert fs[..1][..0] == [] && fs[..1][0] == fs[0];
    assert Entries(fs[..1]) == ["name: a["];
    assert fs[..2][..1] == fs[..1] && fs[..2][1] == fs[1];
    assert Entries(fs[..2]) == ["name: a["];
    assert fs[..3][..2] == fs[..2] && fs[..3][2] == fs[2];
    assert Entries(fs[..3]) == ["name: a["];
    assert fs[..4][..3] == fs[..3] && fs[..4][3] == fs[3];
    assert Entries(fs[..4]) == ["name: a["];
    assert fs[..5][..4] == fs[..4] && fs[..5][4] == fs[4];
    assert Entries(fs[..5]) == ["name: a["];
    assert fs[..6][..5] == fs[..5] && fs[..6][5] == fs[5];
    assert Entries(fs[..6]) == ["name: a[", loc];
    assert fs[..7][..6] == fs[..6] && fs[..8] == fs && fs[..8][..7] == fs[..7];
  }

  /** A value that ends with '[' swallows the separator before the next entry: the
      description of an element named "a[" is two characters shorter than the entries
      joined by ", ". */
  lemma SeparatorSkipped()
    ensures Description(BracketElement()) != "[" + CommaJoined(Entries(Fields(BracketElement()))) + "]"
  {
    var loc := "location: " + PointText(Point(0, 0));
    var cen := "centre: " + PointText(Point(0, 0));
    BracketElementBuilt(loc, cen);
    BracketElementEntries(loc, cen);
    var es := ["name: a[", loc, cen];
    assert es[..2] == ["name: a[", loc] && es[..2][..1] == ["name: a["];
    assert CommaJoined(es[..1]) == "name: a[";
    assert CommaJoined(es[..2]) == "name: a[" + ", " + loc;
    assert CommaJoined(es) == "name: a[" + ", " + loc + ", " + cen;
    assert |Description(BracketElement())| + 2 == |"[" + CommaJoined(es) + "]"|;
  }

  /** `appendDescription` as evidently intended: the separator goes before every entry but
      the first, whatever the text so far ends with. */
  function AppendedFixed(text: string, f: Field): (r: string)
    requires |text| > 0
    ensures |r| > 0
  {
    if !Present(f.value) then text
    else (if |text| > 1 then text + ", " else text) + Entry(f)
  }

  function BuiltFixed(start: string, fields: seq<Field>): (r: string)
    requires |start| > 0
    ensures |r| > 0
    decreases |fields|
  {
    if fields == [] then start else AppendedFixed(BuiltFixed(start, fields[..|fields| - 1]), fields[|fields| - 1])
  }

  /** With the intended separator test the description is always the entries joined by ", ". */
  lemma {:induction false} BuiltFixedJoins(fields: seq<Field>)
    ensures BuiltFixed("[", fields) == "[" + CommaJoined(Entries(fields))
    ensures CommaJoined(Entries(fields)) == "" <==> Entries(fields) == []
    decreases |fields|
  {
    if fields != [] {
      var init, f := fields[..|fields| - 1], fields[|fields| - 1];
      BuiltFixedJoins(init);
      var es := Entries(init);
      if Present(f.value) {
        var entry := Entry(f);
        assert Entries(fields) == es + [entry];
        assert (es + [entry])[..|es|] == es;
        if es == [] {
          assert CommaJoined(es + [entry]) == entry;
          assert BuiltFixed("[", fields) == "[" + entry;
        } else {
          assert CommaJoined(es + [entry]) == CommaJoined(es) + ", " + entry;
          assert BuiltFixed("[", fields) == "[" + CommaJoined(es) + ", " + entry;
        }
      } else {
        assert Entries(fields) == es;
        assert BuiltFixed("[", fields) == BuiltFixed("[", init);
      }
    }
  }

  /** The description with the intended separator test. */
  function FixedDescription(e: Element): (r: string)
    ensures r == "[" + CommaJoined(Entries(Fields(e))) + "]"
  {
    BuiltFixedJoins(Fields(e));
    BuiltFixed("[", Fields(e)) + "]"
  }

  /** `java.lang.StringBuilder` */
  class StringBuilder {
    var text: string

    constructor(s: string)
      ensures text == s
    {
      text := s;
    }

    method Append(s: string)
      modifies this
      ensures text == old(text) + s
    {
      text := text + s;
    }
  }

  /** `appendDescription(builder, valueId, value)`; its one caller starts the builder with
      "[", so `charAt(length() - 1)` never reads an empty builder. */
  method AppendDescription(builder: StringBuilder, valueId: string, value: Option<string>)
    requires |builder.text| > 0
    modifies builder
    ensures builder.text == Appended(old(builder.text), Field(valueId, value))
  {
    if value.Some? && value.value != "" {
      if builder.text[|builder.text| - 1] != '[' {
        builder.Append(", ");
      }
      builder.Append(valueId);
      builder.Append(": ");
      builder.Append(value.value);
    }
  }

  /** `getElementDescription(element)` */
  method GetElementDescription(e: Element) returns (s: string)
    ensures s == Description(e)
  {
    var fs := Fields(e);
    var builder := new StringBuilder("[");
    var i := 0;
    while i < |fs|
      invariant 0 <= i <= |fs|
      invariant builder.text == Built("[", fs[..i])
    {
      BuiltStep("[", fs, i);
      AppendDescription(builder, fs[i].valueId, fs[i].value);
      i := i + 1;
    }
    assert fs[..i] == fs;
    builder.Append("]");
    s := builder.text;
  }

  // ---------------------------------------------------------------- getCurrentActivity

  /** The name expansion of `getCurrentActivity`: a name starting with "." is relative to
      the current package. */
  function ExpandActivity(package: string, activity: string): (r: string)
    ensures |r| >= |activity| && r[|r| - |activity|..] == activity
    ensures StartsWith(activity, ".") ==> StartsWith(r, package)
    ensures |package| > 0 && !StartsWith(package, ".") ==> !StartsWith(r, ".")
    ensures StartsWith(activity, ".") ==> r == package + activity
    ensures !StartsWith(activity, ".") ==> r == activity
  {
    if StartsWith(activity, ".") then package + activity else activity
  }

  /** Expanding an expanded name changes nothing. */
  lemma ExpandIdempotent(package: string, activity: string)
    requires |package| > 0 && !StartsWith(package, ".")
    ensures ExpandActivity(package, ExpandActivity(package, activity)) == ExpandActivity(package, activity)
  {
  }

  // ---------------------------------------------------------------- findFragmentsOnScreen

  const ADDED_FRAGMENTS: string := "Added Fragments:"

  /** The pieces of `s` between `sep` characters, empty ones included. */
  function Pieces(s: string, sep: char): (ps: seq<string>)
    ensures |ps| >= 1
    decreases |s|
  {
    if s == [] then [""]
    else
      var ps := Pieces(s[..|s| - 1], sep);
      if s[|s| - 1] == sep then ps + [""] else ps[..|ps| - 1] + [ps[|ps| - 1] + [s[|s| - 1]]]
  }

  function DropTrailingEmpty(ps: seq<string>): (r: seq<string>)
    ensures |r| <= |ps| && r == ps[..|r|]
    ensures r != [] ==> r[|r| - 1] != ""
    decreases |ps|
  {
    if ps != [] && ps[|ps| - 1] == "" then DropTrailingEmpty(ps[..|ps| - 1]) else ps
  }

  /** `s.split(sep)` for a separator with no regex meaning: the pieces without the
      trailing empty ones; an empty string gives one piece. */
  function Split(s: string, sep: char): seq<string> {
    if s == "" then [""] else DropTrailingEmpty(Pieces(s, sep))
  }

  /** The trimmed output lines. */
  function OutputLines(s: string): (ls: seq<string>)
    ensures |ls| == |Split(s, '\n')|
  {
    var ps := Split(s, '\n');
    seq(|ps|, i requires 0 <= i < |ps| => Trim(ps[i]))
  }

  /** The end of the run of characters satisfying `\s` from i. */
  function SpaceEnd(s: string, i: nat): (e: nat)
    requires i <= |s|
    ensures i <= e <= |s| && (e < |s| ==> !IsSpace(s[e]))
    ensures forall x | i <= x < e :: IsSpace(s[x])
    decreases |s| - i
  {
    if i < |s| && IsSpace(s[i]) then SpaceEnd(s, i + 1) else i
  }

  /** The end of the run of ASCII digits from i. */
  function DigitEnd(s: string, i: nat): (e: nat)
    requires i <= |s|
    ensures i <= e <= |s| && (e < |s| ==> !IsDigit(s[e]))
    ensures forall x | i <= x < e :: IsDigit(s[x])
    decreases |s| - i
  {
    if i < |s| && IsDigit(s[i]) then DigitEnd(s, i + 1) else i
  }

  /** `#\d+:\s+` matches at p: '#', a digit run (all of it, since a digit cannot be ':'), ':'
      and at least one `\s`. */
  predicate IndexPrefixAt(s: string, p: nat) {
    p < |s| && s[p] == '#'
    && var q := DigitEnd(s, p + 1);
       q > p + 1 && q + 1 < |s| && s[q] == ':' && IsSpace(s[q + 1])
  }

  /** `s.replaceFirst("#\\d+:\\s+", "")`, searching from p. */
  function RemoveIndexPrefix(s: string, p: nat): (r: string)
    requires p <= |s|
    decreases |s| - p
  {
    if p == |s| then s
    else if IndexPrefixAt(s, p) then s[..p] + s[SpaceEnd(s, DigitEnd(s, p + 1) + 1)..]
    else RemoveIndexPrefix(s, p + 1)
  }

  /** The end of the run of characters that `.` matches from i. */
  function LineEnd(s: string, i: nat): (e: nat)
    requires i <= |s|
    ensures i <= e <= |s| && (e < |s| ==> IsLineTerminator(s[e]))
    ensures forall x | i <= x < e :: !IsLineTerminator(s[x])
    decreases |s| - i
  {
    if i < |s| && !IsLineTerminator(s[i]) then LineEnd(s, i + 1) else i
  }

  /** `\{.+` matches at p. */
  predicate BraceAt(s: string, p: nat) {
    p + 1 < |s| && s[p] == '{' && !IsLineTerminator(s[p + 1])
  }

  /** `s.replaceFirst("\\{.+", "")`, searching from p. */
  function RemoveBraceTail(s: string, p: nat): (r: string)
    requires p <= |s|
    decreases |s| - p
  {
    if p == |s| then s
    else if BraceAt(s, p) then s[..p] + s[LineEnd(s, p + 1)..]
    else RemoveBraceTail(s, p + 1)
  }

  /** The fragment name on a line of `dumpsys activity` output. */
  function FragmentName(line: string): string {
    var s := RemoveIndexPrefix(line, 0);
    RemoveBraceTail(s, 0)
  }

  /** The loop of `findFragmentsOnScreen` over the first n lines: a line holding
      "Added Fragments:" makes the next line, if it starts with "#", a fragment; when
      there is no next line, `output.get(i + 1)` throws. */
  function Scan(lines: seq<string>, n: nat): (r: Result<seq<string>>)
    requires n <= |lines|
    ensures r.Err? ==> r.error == IndexOutOfBounds && n == |lines| && n > 0 && Contains(lines[n - 1], ADDED_FRAGMENTS)
    decreases n
  {
    if n == 0 then Ok([])
    else
      match Scan(lines, n - 1)
      case Err(e) => Err(e)
      case Ok(found) =>
        if !Contains(lines[n - 1], ADDED_FRAGMENTS) then Ok(found)
        else if n == |lines| then Err(IndexOutOfBounds)
        else if StartsWith(lines[n], "#") then Ok(found + [FragmentName(lines[n])])
        else Ok(found)
  }

  /** The number of header lines followed by a line starting with "#". */
  function Headers(lines: seq<string>, n: nat): nat
    requires n <= |lines|
    decreases n
  {
    if n == 0 then 0
    else Headers(lines, n - 1)
         + (if n < |lines| && Contains(lines[n - 1], ADDED_FRAGMENTS) && StartsWith(lines[n], "#") then 1 else 0)
  }

  /** The scan fails exactly when the last line holds the header, and otherwise collects
      one fragment per header followed by a "#" line. */
  lemma {:induction false} ScanCounts(lines: seq<string>, n: nat)
    requires n <= |lines|
    ensures Scan(lines, n).Err? <==> n == |lines| && n > 0 && Contains(lines[n - 1], ADDED_FRAGMENTS)
    ensures Scan(lines, n).Ok? ==> |Scan(lines, n).value| == Headers(lines, n)
    decreases n
  {
    if n > 0 {
      ScanCounts(lines, n - 1);
    }
  }

  /** A rendered fragment line "#k: name{tail}" gives back the name. */
  lemma FragmentNameRoundTrip(k: nat, name: string, tail: string)
    requires forall i | 0 <= i < |name| :: name[i] != '{' && name[i] != '#'
    requires name != [] ==> !IsSpace(name[0])
    requires tail != [] && forall i | 0 <= i < |tail| :: !IsLineTerminator(tail[i])
    ensures FragmentName("#" + NatToString(k) + ": " + name + "{" + tail) == name
  {
    var rest := name + "{" + tail;
    assert "#" + NatToString(k) + ": " + name + "{" + tail == "#" + NatToString(k) + ": " + rest;
    IndexPrefixRemoved(NatToString(k), rest);
    BraceTailRemoved(name, tail);
  }

  /** "#digits: rest" loses exactly its index prefix when rest does not start with a space. */
  lemma IndexPrefixRemoved(digits: string, rest: string)
    requires |digits| > 0 && AllDigits(digits)
    requires |rest| > 0 && !IsSpace(rest[0])
    ensures RemoveIndexPrefix("#" + digits + ": " + rest, 0) == rest
  {
    var line := "#" + digits + ": " + rest;
    var q := |digits| + 1;
    assert forall x | 1 <= x < q :: line[x] == digits[x - 1];
    assert line[q + 2..] == rest;
    IndexPrefixDrop(line, q, rest);
  }

  /** The same, for a line that has the shape "#digits: rest" with the ':' at q. */
  lemma IndexPrefixDrop(line: string, q: nat, rest: string)
    requires 1 < q && q + 2 < |line| && line[0] == '#' && forall x | 1 <= x < q :: IsDigit(line[x])
    requires line[q] == ':' && line[q + 1] == ' ' && line[q + 2..] == rest && !IsSpace(rest[0])
    ensures RemoveIndexPrefix(line, 0) == rest
  {
    assert DigitEnd(line, 1) == q by {
      DigitEndAll(line, 1, q);
    }
    assert SpaceEnd(line, q + 1) == q + 2 by {
      assert line[q + 2] == rest[0];
      SpaceEndStops(line, q + 1, q + 2);
    }
    assert IndexPrefixAt(line, 0);
  }

  /** "name{tail" loses its brace tail when name holds no brace and tail no line end. */
  lemma BraceTailRemoved(name: string, tail: string)
    requires forall i | 0 <= i < |name| :: name[i] != '{'
    requires |tail| > 0 && forall i | 0 <= i < |tail| :: !IsLineTerminator(tail[i])
    ensures RemoveBraceTail(name + "{" + tail, 0) == name
  {
    var s := name + "{" + tail;
    assert s[|name| + 1..] == tail;
    forall p | 0 <= p < |name| ensures !BraceAt(s, p) {
      assert s[p] == name[p];
    }
    BraceSkips(s, 0, |name|);
    assert BraceAt(s, |name|);
    LineEndAll(s, |name| + 1);
    assert s[..|name|] == name;
  }

  lemma {:induction false} DigitEndAll(s: string, i: nat, q: nat)
    requires i <= q < |s| && !IsDigit(s[q]) && forall x | i <= x < q :: IsDigit(s[x])
    ensures DigitEnd(s, i) == q
    decreases q - i
  {
    if i < q {
      DigitEndAll(s, i + 1, q);
    }
  }

  lemma SpaceEndStops(s: string, i: nat, e: nat)
    requires i < e < |s| && e == i + 1 && IsSpace(s[i]) && !IsSpace(s[e])
    ensures SpaceEnd(s, i) == e
  {
  }

  lemma {:induction false} BraceSkips(s: string, p: nat, q: nat)
    requires p <= q <= |s| && forall x | p <= x < q :: !BraceAt(s, x)
    ensures RemoveBraceTail(s, p) == RemoveBraceTail(s, q)
    decreases q - p
  {
    if p < q {
      BraceSkips(s, p + 1, q);
    }
  }

  lemma {:induction false} LineEndAll(s: string, i: nat)
    requires i <= |s| && forall x | i <= x < |s| :: !IsLineTerminator(s[x])
    ensures LineEnd(s, i) == |s|
    decreases |s| - i
  {
    if i < |s| {
      LineEndAll(s, i + 1);
    }
  }

  // ---------------------------------------------------------------- the lazily created driver

  /** What the device reports through the driver. */
  datatype Device = Device(currentActivity: string, currentPackage: string,
                           clickableElements: seq<Element>, allElements: seq<Element>, shellOutput: string)

  class Manager {
    /** The device the driver talks to; the model reads it and never changes it. */
    const device: Device
    /** `driver != null` */
    var driverCreated: bool
    /** How many times `createAppiumDriver` has run. */
    var driversCreated: nat

    constructor(device: Device)
      ensures this.device == device && !driverCreated && driversCreated == 0
    {
      this.device := device;
      driverCreated := false;
      driversCreated := 0;
    }

    /** `createAppiumDriver()`; the service and the capabilities are not modelled. */
    method CreateAppiumDriver()
      modifies this
      ensures driverCreated && driversCreated == old(driversCreated) + 1
    {
      driverCreated := true;
      driversCreated := driversCreated + 1;
    }

    /** The check every accessor starts with: create the driver when it is null. */
    method EnsureDriver()
      modifies this
      ensures driverCreated
      ensures driversCreated == old(driversCreated) + (if old(driverCreated) then 0 else 1)
    {
      if !driverCreated {
        CreateAppiumDriver();
      }
    }

    /** `getDriver()`, and the driver part of `navigateBack()`, `launchApp()` and
        `hideKeyboard()`, whose effects on the device are not modelled. */
    method GetDriver()
      modifies this
      ensures driverCreated
      ensures driversCreated == old(driversCreated) + (if old(driverCreated) then 0 else 1)
    {
      EnsureDriver();
    }

    /** `getCurrentActivity()` */
    method GetCurrentActivity() returns (activity: string)
      modifies this
      ensures driverCreated
      ensures driversCreated == old(driversCreated) + (if old(driverCreated) then 0 else 1)
      ensures activity == ExpandActivity(device.currentPackage, device.currentActivity)
    {
      EnsureDriver();
      if StartsWith(device.currentActivity, ".") {
        return device.currentPackage + device.currentActivity;
      }
      return device.currentActivity;
    }

    /** `getCurrentPackage()` */
    method GetCurrentPackage() returns (package: string)
      modifies this
      ensures driverCreated
      ensures driversCreated == old(driversCreated) + (if old(driverCreated) then 0 else 1)
      ensures package == device.currentPackage
    {
      EnsureDriver();
      return device.currentPackage;
    }

    /** `getClickElementsOnScreen()`: no null check, so a missing driver throws. */
    method GetClickElementsOnScreen() returns (r: Result<seq<Element>>)
      ensures r.Err? <==> !driverCreated
      ensures r.Err? ==> r.error == NullPointer
      ensures r.Ok? ==> r.value == device.clickableElements
    {
      if !driverCreated {
        return Err(NullPointer);
      }
      return Ok(device.clickableElements);
    }

    /** `getElementsOnScreen()`: no null check either. */
    method GetElementsOnScreen() returns (r: Result<seq<Element>>)
      ensures r.Err? <==> !driverCreated
      ensures r.Err? ==> r.error == NullPointer
      ensures r.Ok? ==> r.value == device.allElements
    {
      if !driverCreated {
        return Err(NullPointer);
      }
      return Ok(device.allElements);
    }

    /** `findFragmentsOnScreen()`: the package and activity lookups create the driver
        before the shell command runs. */
    method FindFragmentsOnScreen() returns (r: Result<seq<string>>)
      modifies this
      ensures driverCreated
      ensures driversCreated == old(driversCreated) + (if old(driverCreated) then 0 else 1)
      ensures r == Scan(OutputLines(device.shellOutput), |OutputLines(device.shellOutput)|)
    {
      var package := GetCurrentPackage();
      var activity := GetCurrentActivity();
      var output := OutputLines(device.shellOutput);
      var fragments: seq<string> := [];
      var i := 0;
      while i < |output|
        invariant 0 <= i <= |output|
        invariant Scan(output, i) == Ok(fragments)
      {
        if Contains(output[i], ADDED_FRAGMENTS) {
          if i + 1 >= |output| {
            return Err(IndexOutOfBounds);
          }
          if StartsWith(output[i + 1], "#") {
            var fragment := FragmentName(output[i + 1]);
            fragments := fragments + [fragment];
          }
        }
        i := i + 1;
      }
      return Ok(fragments);
    }
  }
}
