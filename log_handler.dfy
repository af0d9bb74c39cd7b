/** DroidCoverage/src/main/java/phd/research/utilities/LogHandler.java: reading one
    instrumentation log line and applying it to the graph.

    The two patterns
        control:  Method:\s<(.+):\s(.+)>\sView:\s(-?\d+)
        method:   Method:\s<(.+):\s(.+)>
    are encoded directly. `find()` takes the leftmost start; from there the greedy
    groups make group 1 end at the LAST ":" + whitespace that still leaves a valid
    tail, and group 2 end at the last possible '>'. Since `.` never matches a line
    terminator, a match lies within the terminator-free stretch after "Method:\s<";
    lines handed over by a line reader hold no CR or LF, so the whitespace inside a
    match is never one of those two.

    Soot's scene is a map from class name to the class's outer class and the
    sub-signatures of its methods. */
module LogHandler {
  import opened Wrappers
  import opened JStrings
  import opened JavaInt
  import opened Graph

  const M_TAG: string := "<METHOD>"
  const I_TAG: string := "<INTERACTION>"
  const C_TAG: string := "<CONTROL>"

  const METHOD_KEY: string := "Method:"
  const VIEW_KEY: string := "View:"

  /** A line that marks an interaction (`line.contains(I_TAG)`). */
  predicate IsMarker(line: string) {
    Contains(line, I_TAG)
  }

  /** A line the instrumentation wrote for a method or a control. */
  predicate IsTagged(line: string) {
    Contains(line, M_TAG) || Contains(line, C_TAG)
  }

  /** What the model needs of a Soot class: its outer class and its methods' sub-signatures. */
  datatype SootClass = SootClass(outerClass: Option<string>, methods: set<string>)

  type Scene = map<string, SootClass>

  datatype SootMethod = SootMethod(declaringClass: string, subSignature: string)

  /** `SootMethod.getSignature()`: "<" class ": " sub-signature ">". */
  function Signature(m: SootMethod): string {
    "<" + m.declaringClass + ": " + m.subSignature + ">"
  }

  /** `Tuple<Integer, SootClass, SootMethod>`: view id (-1 for a method line), class name, method. */
  datatype LogData = LogData(id: int, className: string, sootMethod: SootMethod)

  /** The matcher's groups; `view` is empty for the method pattern, which has no group 3. */
  datatype Groups = Groups(className: string, methodName: string, view: string)

  // ---------------------------------------------------------------- the patterns

  /** `.` of java.util.regex. */
  predicate Dot(c: char) {
    !IsLineTerminator(c)
  }

  predicate AllDots(s: string) {
    forall i | 0 <= i < |s| :: Dot(s[i])
  }

  /** The end of the stretch of `.`-characters that starts at `i`. */
  function DotEnd(s: string, i: int): (e: int)
    requires 0 <= i <= |s|
    ensures i <= e <= |s|
    ensures forall x | i <= x < e :: Dot(s[x])
    ensures e < |s| ==> !Dot(s[e])
    decreases |s| - i
  {
    if i == |s| || !Dot(s[i]) then i else DotEnd(s, i + 1)
  }

  /** "Method:\s<" starts at `p`. */
  predicate StartAt(s: string, p: int) {
    MatchAt(s, METHOD_KEY, p) && p + 8 < |s| && IsSpace(s[p + 7]) && s[p + 8] == '<'
  }

  /** ":\s" at `j`: where group 1 may end. */
  predicate Separator(r: string, j: int) {
    0 <= j && j + 1 < |r| && r[j] == ':' && IsSpace(r[j + 1])
  }

  /** The last separator before `hi`, or -1. */
  function LastSeparator(r: string, hi: int): (j: int)
    requires hi <= |r|
    ensures j == -1 || (0 <= j < hi && Separator(r, j))
    ensures forall x | j < x < hi :: !Separator(r, x)
    decreases hi
  {
    if hi <= 0 then -1 else if Separator(r, hi - 1) then hi - 1 else LastSeparator(r, hi - 1)
  }

  /** The last '>' before `hi`, or -1. */
  function LastClose(r: string, hi: int): (k: int)
    requires hi <= |r|
    ensures k == -1 || (0 <= k < hi && r[k] == '>')
    ensures forall x | k < x < hi && 0 <= x :: r[x] != '>'
    decreases hi
  {
    if hi <= 0 then -1 else if r[hi - 1] == '>' then hi - 1 else LastClose(r, hi - 1)
  }

  /** `-?\d+` can start at `q`. */
  predicate NumberAt(r: string, q: int) {
    0 <= q && ((q < |r| && IsDigit(r[q])) || (q + 1 < |r| && r[q] == '-' && IsDigit(r[q + 1])))
  }

  /** ">\sView:\s" at `k`, followed by a number. */
  predicate ViewTail(r: string, k: int) {
    0 <= k && k + 8 <= |r| && r[k] == '>' && IsSpace(r[k + 1]) && MatchAt(r, VIEW_KEY, k + 2)
    && IsSpace(r[k + 7]) && NumberAt(r, k + 8)
  }

  /** The last view tail before `hi`, or -1. */
  function LastViewTail(r: string, hi: int): (k: int)
    requires hi <= |r|
    ensures k == -1 || (0 <= k < hi && ViewTail(r, k))
    ensures forall x | k < x < hi :: !ViewTail(r, x)
    decreases hi
  {
    if hi <= 0 then -1 else if ViewTail(r, hi - 1) then hi - 1 else LastViewTail(r, hi - 1)
  }

  /** The digits `\d+` takes greedily from `q`. */
  function DigitRun(r: string, q: int): (d: string)
    requires 0 <= q <= |r|
    ensures AllDigits(d) && q + |d| <= |r| && d == r[q..q + |d|]
    ensures q + |d| < |r| ==> !IsDigit(r[q + |d|])
    decreases |r| - q
  {
    if q < |r| && IsDigit(r[q]) then [r[q]] + DigitRun(r, q + 1) else []
  }

  /** Group 3, `-?\d+`, at a position where a number starts. */
  function ViewNumber(r: string, q: int): (v: string)
    requires NumberAt(r, q)
    ensures NumberShape(v)
  {
    if r[q] == '-' then "-" + DigitRun(r, q + 1) else DigitRun(r, q)
  }

  /** An optional minus sign and at least one digit. */
  predicate NumberShape(v: string) {
    (|v| > 0 && AllDigits(v)) || (|v| > 1 && v[0] == '-' && AllDigits(v[1..]))
  }

  /** The pattern after "Method:\s<", matched against the stretch `r` that follows it. */
  function MatchBody(r: string, control: bool): (g: Option<Groups>)
    ensures g.Some? ==> |g.value.className| > 0 && |g.value.methodName| > 0
    ensures g.Some? && control ==> NumberShape(g.value.view)
  {
    if control then ControlFrom(r, LastViewTail(r, |r|)) else MethodFrom(r, LastClose(r, |r|))
  }

  function ControlFrom(r: string, k: int): (g: Option<Groups>)
    requires k == -1 || (0 <= k < |r| && ViewTail(r, k))
    ensures g.Some? ==> |g.value.className| > 0 && |g.value.methodName| > 0 && NumberShape(g.value.view)
  {
    if k < 0 then None else SplitAt(r, k, ViewNumber(r, k + 8))
  }

  function MethodFrom(r: string, k: int): (g: Option<Groups>)
    requires k == -1 || (0 <= k < |r| && r[k] == '>')
    ensures g.Some? ==> |g.value.className| > 0 && |g.value.methodName| > 0
  {
    if k < 0 then None else SplitAt(r, k, "")
  }

  function SplitAt(r: string, k: int, view: string): (g: Option<Groups>)
    requires 0 <= k < |r| && r[k] == '>'
    ensures g.Some? ==> |g.value.className| > 0 && |g.value.methodName| > 0 && g.value.view == view
  {
    var j := LastSeparator(r, k - 2);
    if j < 1 then None else Some(Cut(r, j, k, view))
  }

  /** Group 1 ends at the separator `j`, group 2 at the '>' at `k`. */
  function Cut(r: string, j: int, k: int, view: string): (g: Groups)
    requires 1 <= j && j + 2 < k < |r| && Separator(r, j) && r[k] == '>'
    ensures |g.className| > 0 && |g.methodName| > 0 && g.view == view
  {
    Groups(r[..j], r[j + 2..k], view)
  }

  /** Whatever the pattern matches, groups 1 and 2 lie in the stretch as "class:\smethod>". */
  lemma MatchBodyWithin(r: string, control: bool)
    ensures MatchBody(r, control).Some? ==> Within(r, MatchBody(r, control).value)
  {
    var k := if control then LastViewTail(r, |r|) else LastClose(r, |r|);
    if k >= 0 {
      SplitAtWithin(r, k, if control then ViewNumber(r, k + 8) else "");
    }
  }

  lemma SplitAtWithin(r: string, k: int, view: string)
    requires 0 <= k < |r| && r[k] == '>'
    ensures SplitAt(r, k, view).Some? ==> Within(r, SplitAt(r, k, view).value)
  {
    var j := LastSeparator(r, k - 2);
    if j >= 1 {
      CutWithin(r, j, k, view);
    }
  }

  lemma CutWithin(r: string, j: int, k: int, view: string)
    requires 1 <= j && j + 2 < k < |r| && Separator(r, j) && r[k] == '>'
    ensures Within(r, Cut(r, j, k, view))
  {
    var g := Cut(r, j, k, view);
    assert |g.className| == j && |g.methodName| == k - j - 2;
  }

  /** Groups 1 and 2 are non-empty and lie in `r` as "class:\smethod>", starting at 0. */
  predicate Within(r: string, g: Groups) {
    var j := |g.className|;
    var k := j + 2 + |g.methodName|;
    j > 0 && |g.methodName| > 0 && k < |r| && r[..j] == g.className && Separator(r, j)
    && r[j + 2..k] == g.methodName && r[k] == '>'
  }

  /** The stretch after "Method:\s<" at `p` in which group 1 onwards must lie. */
  function Body(s: string, p: int): string
    requires StartAt(s, p)
  {
    s[p + 9..DotEnd(s, p + 9)]
  }

  /** A match starts at `p`. */
  predicate MatchesAt(s: string, p: int, control: bool) {
    StartAt(s, p) && MatchBody(Body(s, p), control).Some?
  }

  /** `matcher.find()` from `p`: the groups of the leftmost match (see FindLeftmost). */
  function Find(s: string, p: nat, control: bool): (g: Option<Groups>)
    ensures g.Some? ==> |g.value.className| > 0 && |g.value.methodName| > 0
    ensures g.Some? && control ==> NumberShape(g.value.view)
    decreases |s| - p
  {
    if p > |s| then None
    else if MatchesAt(s, p, control) then MatchBody(Body(s, p), control)
    else Find(s, p + 1, control)
  }

  // ---------------------------------------------------------------- parseInt and Soot lookups

  /** `Integer.parseInt`: an optional sign and decimal digits, within the int range. */
  function ParseInt(s: string): (r: Result<int>)
    ensures r.Ok? ==> InRange(r.value)
    ensures r.Err? ==> r.error == NumberFormat
    ensures |s| > 0 && AllDigits(s) ==>
              r == if DigitsValue(s) <= INT_MAX then Ok(DigitsValue(s)) else Err(NumberFormat)
    ensures |s| > 1 && s[0] == '+' && AllDigits(s[1..]) ==>
              r == if DigitsValue(s[1..]) <= INT_MAX then Ok(DigitsValue(s[1..])) else Err(NumberFormat)
    ensures |s| > 1 && s[0] == '-' && AllDigits(s[1..]) ==>
              r == if DigitsValue(s[1..]) <= -INT_MIN then Ok(0 - DigitsValue(s[1..])) else Err(NumberFormat)
    ensures r.Ok? ==> |s| > 0 && (AllDigits(s) || (|s| > 1 && (s[0] == '-' || s[0] == '+') && AllDigits(s[1..])))
  {
    if |s| > 1 && (s[0] == '-' || s[0] == '+') && AllDigits(s[1..]) then
      var v := if s[0] == '-' then 0 - DigitsValue(s[1..]) else DigitsValue(s[1..]);
      if InRange(v) then Ok(v) else Err(NumberFormat)
    else if |s| > 0 && AllDigits(s) then
      var v := DigitsValue(s);
      if InRange(v) then Ok(v) else Err(NumberFormat)
    else Err(NumberFormat)
  }

  /** Every int survives rendering and parsing. */
  lemma {:induction false} ParseIntRoundTrip(n: int)
    requires InRange(n)
    ensures ParseInt(IntToString(n)) == Ok(n)
  {
    var s := IntToString(n);
    if n < 0 {
      assert s[1..] == NatToString(-n);
    } else {
      assert s == NatToString(n);
    }
  }

  /** Leading zeros do not change the number parsed ("007" gives 7). */
  lemma {:induction false} ParseIntLeadingZero(s: string)
    requires |s| > 0 && AllDigits(s)
    ensures ParseInt("0" + s) == ParseInt(s)
  {
    LeadingZeroValue(s);
  }

  lemma {:induction false} LeadingZeroValue(s: string)
    requires AllDigits(s)
    ensures AllDigits("0" + s) && DigitsValue("0" + s) == DigitsValue(s)
    decreases |s|
  {
    var z := "0" + s;
    assert forall i | 1 <= i < |z| :: z[i] == s[i - 1];
    if s != [] {
      var init := s[..|s| - 1];
      assert z[..|z| - 1] == "0" + init;
      LeadingZeroValue(init);
    }
  }

  /** Group 3 always has the shape of a number, so parsing it fails only out of range. */
  lemma {:induction false} NumberShapeParses(v: string)
    requires NumberShape(v)
    ensures ParseInt(v).Err? <==> if v[0] == '-' then !InRange(0 - DigitsValue(v[1..])) else !InRange(DigitsValue(v))
  {
  }

  /** `getSootClassUnsafe(group 1)` followed by the outer-class step: the class is
      replaced by its outer class when it has one, and the method is looked up on the
      outer class only when the class itself lacks it. A missing outer class has no methods. */
  function Resolve(scene: Scene, className: string, subSignature: string): (r: (string, Option<SootMethod>))
    requires className in scene
    ensures scene[className].outerClass.Some? ==> r.0 == scene[className].outerClass.value
    ensures scene[className].outerClass.None? ==> r.0 == className
    ensures subSignature in scene[className].methods ==> r.1 == Some(SootMethod(className, subSignature))
    ensures subSignature !in scene[className].methods ==>
              (r.1.Some? <==> scene[className].outerClass.Some? && r.0 in scene && subSignature in scene[r.0].methods)
    ensures r.1.Some? ==> (r.1.value.subSignature == subSignature && r.1.value.declaringClass in scene
                           && subSignature in scene[r.1.value.declaringClass].methods)
  {
    var cls := scene[className];
    var found := if subSignature in cls.methods then Some(SootMethod(className, subSignature)) else None;
    if cls.outerClass.None? then (className, found)
    else
      var outer := cls.outerClass.value;
      if found.None? && outer in scene && subSignature in scene[outer].methods
      then (outer, Some(SootMethod(outer, subSignature)))
      else (outer, found)
  }

  // ---------------------------------------------------------------- regexLogMessage

  /** A parsed line: the leftmost match of the chosen pattern on the quote-free message
      names a class of the scene; the class reported is its outer class when it has one,
      and the method is the one `Resolve` finds (on the class itself, or else on the outer
      class); the id is group 3 parsed when the message holds the control tag, else -1. */
  ghost predicate Matched(logMessage: string, scene: Scene, d: LogData) {
    var message := RemoveChar(logMessage, '\'');
    var g := Find(message, 0, Contains(logMessage, C_TAG));
    g.Some? && g.value.className in scene
    && var cls := scene[g.value.className];
       d.className == (if cls.outerClass.Some? then cls.outerClass.value else g.value.className)
       && d.sootMethod.subSignature == g.value.methodName
       && (g.value.methodName in cls.methods ==> d.sootMethod.declaringClass == g.value.className)
       && (g.value.methodName !in cls.methods ==> cls.outerClass.Some? && d.sootMethod.declaringClass == cls.outerClass.value)
       && (if Contains(message, C_TAG) then ParseInt(g.value.view) == Ok(d.id) else d.id == -1)
  }

  /** `regexLogMessage`: the parsed line, None where the source returns null, or the
      exception it throws. The tag chooses the pattern before single quotes are removed;
      the id is parsed when the quote-free message holds the control tag. */
  function RegexLogMessage(logMessage: string, scene: Scene): (r: Result<Option<LogData>>)
    ensures !Contains(logMessage, C_TAG) && !Contains(logMessage, M_TAG) ==> r == Ok(None)
    ensures r.Ok? && r.value.Some? && !Contains(RemoveChar(logMessage, '\''), C_TAG) ==> r.value.value.id == -1
    ensures r.Ok? && r.value.Some? && Contains(logMessage, C_TAG) ==> InRange(r.value.value.id)
    ensures r.Err? ==> r.error == NumberFormat || (r.error == IndexOutOfBounds && !Contains(logMessage, C_TAG))
    ensures r.Ok? && r.value.Some? ==>
              var m := r.value.value.sootMethod;
              m.declaringClass in scene && m.subSignature in scene[m.declaringClass].methods
    ensures r.Ok? && r.value.Some? ==> Matched(logMessage, scene, r.value.value)
    ensures Contains(logMessage, C_TAG) || Contains(logMessage, M_TAG) ==>
              var g := Find(RemoveChar(logMessage, '\''), 0, Contains(logMessage, C_TAG));
              (r == Ok(None) <==>
                 g.None? || g.value.className !in scene
                 || Resolve(scene, g.value.className, g.value.methodName).1.None?
                 || (!Contains(RemoveChar(logMessage, '\''), C_TAG) && !Contains(RemoveChar(logMessage, '\''), M_TAG)))
  {
    if !Contains(logMessage, C_TAG) && !Contains(logMessage, M_TAG) then Ok(None)
    else
      var control := Contains(logMessage, C_TAG);
      var message := RemoveChar(logMessage, '\'');
      match Find(message, 0, control)
      case None => Ok(None)
      case Some(groups) =>
        if groups.className !in scene then Ok(None)
        else
          var (sootClass, found) := Resolve(scene, groups.className, groups.methodName);
          if found.None? then Ok(None)
          else if Contains(message, C_TAG) then
            if !control then Err(IndexOutOfBounds)  // the method pattern has no group 3
            else
              match ParseInt(groups.view)
              case Err(e) => Err(e)
              case Ok(id) => Ok(Some(LogData(id, sootClass, found.value)))
          else if Contains(message, M_TAG) then Ok(Some(LogData(-1, sootClass, found.value)))
          else Ok(None)
  }

  // ---------------------------------------------------------------- quote removal keeps tags

  lemma {:induction false} RemoveCharAppend(a: string, b: string, c: char)
    ensures RemoveChar(a + b, c) == RemoveChar(a, c) + RemoveChar(b, c)
    decreases |a|
  {
    if a != [] {
      assert (a + b)[1..] == a[1..] + b;
      RemoveCharAppend(a[1..], b, c);
    } else {
      assert a + b == b;
    }
  }

  lemma {:induction false} RemoveCharAbsent(s: string, c: char)
    requires forall i | 0 <= i < |s| :: s[i] != c
    ensures RemoveChar(s, c) == s
    decreases |s|
  {
    if s != [] {
      RemoveCharAbsent(s[1..], c);
      assert s == [s[0]] + s[1..];
    }
  }

  /** Removing a character that a tag does not hold keeps every occurrence of the tag. */
  lemma {:induction false} RemoveCharKeepsTag(s: string, tag: string, c: char)
    requires Contains(s, tag)
    requires forall i | 0 <= i < |tag| :: tag[i] != c
    ensures Contains(RemoveChar(s, c), tag)
  {
    var i :| 0 <= i <= |s| - |tag| && MatchAt(s, tag, i);
    assert s == s[..i] + (tag + s[i + |tag|..]);
    RemoveCharAppend(s[..i], tag + s[i + |tag|..], c);
    RemoveCharAppend(tag, s[i + |tag|..], c);
    RemoveCharAbsent(tag, c);
    var head := RemoveChar(s[..i], c);
    var rest := RemoveChar(s[i + |tag|..], c);
    assert RemoveChar(s, c) == head + (tag + rest);
    assert MatchAt(tag + rest, tag, 0);
    ContainsSelf(tag + rest, tag, 0);
    ContainsSuffix(head, tag + rest, tag);
  }

  /** A line with the control tag is parsed with the control pattern and yields a
      view id (or fails on it); it never throws the missing-group exception. */
  lemma ControlLineNeverMissesGroup(logMessage: string, scene: Scene)
    requires Contains(logMessage, C_TAG)
    ensures RegexLogMessage(logMessage, scene) != Err(IndexOutOfBounds)
  {
  }

  /** `find()` passes over start positions where no match begins. */
  lemma {:induction false} FindSkips(s: string, p: nat, q: nat, control: bool)
    requires p <= q <= |s|
    requires forall x | p <= x < q :: !MatchesAt(s, x, control)
    ensures Find(s, p, control) == Find(s, q, control)
    decreases q - p
  {
    if p < q {
      assert !MatchesAt(s, p, control);
      assert Find(s, p, control) == Find(s, p + 1, control);
      FindSkips(s, p + 1, q, control);
    }
  }

  /** The groups `find()` reports are those of the leftmost start where a match begins. */
  lemma {:induction false} FindLeftmost(s: string, p: nat, q: nat, control: bool)
    requires p <= q <= |s| && MatchesAt(s, q, control)
    requires forall x | p <= x < q :: !MatchesAt(s, x, control)
    ensures Find(s, p, control) == MatchBody(Body(s, q), control)
    ensures Find(s, p, control).Some?
  {
    FindSkips(s, p, q, control);
  }

  /** `find()` fails exactly when no match begins anywhere from `p` on. */
  lemma {:induction false} FindNoneIffNoMatch(s: string, p: nat, control: bool)
    ensures Find(s, p, control).None? <==> forall q | p <= q <= |s| :: !MatchesAt(s, q, control)
    decreases |s| - p
  {
    if Find(s, p, control).None? {
      FindNoneNoMatch(s, p, control);
    } else {
      NoMatchFindNone(s, p, control);
    }
  }

  lemma {:induction false} FindNoneNoMatch(s: string, p: nat, control: bool)
    requires Find(s, p, control).None?
    ensures forall q | p <= q <= |s| :: !MatchesAt(s, q, control)
    decreases |s| - p
  {
    if p <= |s| {
      assert !MatchesAt(s, p, control);
      FindNoneNoMatch(s, p + 1, control);
    }
  }

  lemma NoMatchFindNone(s: string, p: nat, control: bool)
    ensures (forall q | p <= q <= |s| :: !MatchesAt(s, q, control)) ==> Find(s, p, control).None?
  {
    if p <= |s| && forall q | p <= q <= |s| :: !MatchesAt(s, q, control) {
      FindSkips(s, p, |s|, control);
      assert Find(s, |s|, control).None?;
    }
  }

  // ---------------------------------------------------------------- round trips

  /** A class or method name as the instrumentation writes it: non-empty, on one line,
      and free of the characters that delimit the fields of a log line. */
  predicate PlainName(x: string) {
    |x| > 0 && forall i | 0 <= i < |x| ::
      Dot(x[i]) && x[i] != ':' && x[i] != '>' && x[i] != '<' && x[i] != '\''
  }

  /** The class `regexLogMessage` reports for class `c`: its outer class when it has one. */
  function ReportedClass(scene: Scene, c: string): string
    requires c in scene
  {
    if scene[c].outerClass.Some? then scene[c].outerClass.value else c
  }

  const C_HEAD: string := C_TAG + " Method: <"
  const M_HEAD: string := M_TAG + " Method: <"

  /** What follows the head of a control line: class, method and view id. */
  function ControlText(c: string, m: string, n: string): string {
    MethodText(c, m) + ViewText(n)
  }

  /** What follows the method on a control line. */
  function ViewText(n: string): string {
    " View: " + n
  }

  /** A rendered view id: digits after at most a leading minus sign. */
  predicate IdText(n: string) {
    |n| > 0 && forall i | 0 <= i < |n| :: IsDigit(n[i]) || (i == 0 && n[i] == '-' && |n| > 1 && IsDigit(n[1]))
  }

  /** What follows the head of a method line: class and method. */
  function MethodText(c: string, m: string): string {
    c + ": " + m + ">"
  }

  /** The line the instrumentation writes when a control's listener runs. */
  function ControlLine(c: string, m: string, id: int): string {
    C_HEAD + ControlText(c, m, IntToString(id))
  }

  /** The line the instrumentation writes when a method runs. */
  function MethodLine(c: string, m: string): string {
    M_HEAD + MethodText(c, m)
  }

  /** On one line and free of single quotes. */
  predicate QuoteFree(s: string) {
    forall i | 0 <= i < |s| :: Dot(s[i]) && s[i] != '\''
  }

  lemma QuoteFreeJoin(a: string, b: string)
    requires QuoteFree(a) && QuoteFree(b)
    ensures QuoteFree(a + b)
  {
    forall i | |a| <= i < |a + b| ensures Dot((a + b)[i]) && (a + b)[i] != '\'' {
      assert (a + b)[i] == b[i - |a|];
    }
  }

  lemma ControlTextQuoteFree(c: string, m: string, n: string)
    requires PlainName(c) && PlainName(m) && QuoteFree(n)
    ensures QuoteFree(ControlText(c, m, n))
  {
    MethodTextQuoteFree(c, m);
    QuoteFreeJoin(" View: ", n);
    QuoteFreeJoin(MethodText(c, m), ViewText(n));
  }

  lemma MethodTextQuoteFree(c: string, m: string)
    requires PlainName(c) && PlainName(m)
    ensures QuoteFree(MethodText(c, m))
  {
    QuoteFreeJoin(c, ": ");
    QuoteFreeJoin(c + ": ", m);
    QuoteFreeJoin(c + ": " + m, ">");
  }

  /** The head of a control line: the tag, then "Method:\s<" at 10, and no "Me" before it. */
  lemma ControlHead()
    ensures |C_HEAD| == 19 && C_HEAD[..9] == C_TAG && QuoteFree(C_HEAD)
    ensures C_HEAD[10..17] == METHOD_KEY && C_HEAD[17] == ' ' && C_HEAD[18] == '<'
    ensures forall x | 0 <= x < 10 :: C_HEAD[x] != 'M' || C_HEAD[x + 1] != 'e'
  {
    assert C_HEAD == "<CONTROL> Method: <";
    assert C_HEAD[10..17] == "Method:";
  }

  /** The head of a method line: the tag, then "Method:\s<" at 9, and no "Me" before it. */
  lemma MethodHead()
    ensures |M_HEAD| == 18 && M_HEAD[..8] == M_TAG && QuoteFree(M_HEAD)
    ensures M_HEAD[9..16] == METHOD_KEY && M_HEAD[16] == ' ' && M_HEAD[17] == '<'
    ensures forall x | 0 <= x < 9 :: M_HEAD[x] != 'M' || M_HEAD[x + 1] != 'e'
  {
    assert M_HEAD == "<METHOD> Method: <";
    assert M_HEAD[9..16] == "Method:";
  }

  lemma {:induction false} DotEndAll(s: string, i: int)
    requires 0 <= i <= |s|
    requires forall x | i <= x < |s| :: Dot(s[x])
    ensures DotEnd(s, i) == |s|
  {
  }

  /** One differing character rules out an occurrence. */
  lemma Mismatch(s: string, sub: string, i: int, t: int)
    requires 0 <= i && 0 <= t < |sub| && i + t < |s| && s[i + t] != sub[t]
    ensures !MatchAt(s, sub, i)
  {
    if i + |sub| <= |s| {
      assert s[i..i + |sub|][t] == s[i + t];
    }
  }

  /** No "Method:" starts in the first `n` characters of `line`, which agree with `prefix`. */
  lemma {:induction false} NoStartBefore(line: string, prefix: string, n: int, control: bool)
    requires 0 <= n && n + 1 < |prefix| <= |line| && line[..|prefix|] == prefix
    requires forall x | 0 <= x < n :: prefix[x] != 'M' || prefix[x + 1] != 'e'
    ensures forall x | 0 <= x < n :: !MatchesAt(line, x, control)
  {
    forall x | 0 <= x < n ensures !StartAt(line, x) {
      assert line[x] == prefix[x] && line[x + 1] == prefix[x + 1];
      if line[x] != 'M' {
        Mismatch(line, METHOD_KEY, x, 0);
      } else {
        Mismatch(line, METHOD_KEY, x, 1);
      }
    }
  }

  /** The body of a rendered line: group 1 ends at the only separator, group 2 at the '>' given. */
  lemma {:induction false} PlainBodyGroups(r: string, c: string, m: string, k: int)
    requires PlainName(c) && PlainName(m)
    requires k == |c| + 2 + |m| && k < |r| && r[..k + 1] == MethodText(c, m)
    ensures LastSeparator(r, k - 2) == |c|
    ensures r[..|c|] == c && r[|c| + 2..k] == m
  {
    assert r[|c|] == ':' && r[|c| + 1] == ' ';
    assert Separator(r, |c|);
    forall x | |c| < x < k - 2 ensures !Separator(r, x) {
      assert x == |c| + 1 || r[x] == m[x - |c| - 2];
    }
    assert r[..|c|] == MethodText(c, m)[..|c|];
    assert r[|c| + 2..k] == MethodText(c, m)[|c| + 2..k];
  }

  /** Group 3 of a rendered line is the whole rendered id. */
  lemma {:induction false} NumberRun(r: string, q: int, n: string)
    requires 0 <= q < |r| && r[q..] == n && IdText(n)
    ensures ViewNumber(r, q) == n
  {
    forall i | q < i < |r| ensures IsDigit(r[i]) {
      assert r[i] == n[i - q];
    }
    assert r[q] == n[0];
    if r[q] == '-' {
      assert r[q + 1] == n[1];
      var d := DigitRun(r, q + 1);
      assert q + 1 + |d| == |r|;
      assert n == [n[0]] + n[1..];
    } else {
      var d := DigitRun(r, q);
      assert q + |d| == |r|;
    }
  }

  /** The view tail of a rendered control line starts at the '>' that closes the method. */
  lemma {:induction false} RenderedViewTail(c: string, m: string, n: string)
    requires IdText(n)
    ensures var r := ControlText(c, m, n); var k := |MethodText(c, m)| - 1;
      0 <= k && LastViewTail(r, |r|) == k && r[k + 8..] == n
  {
    var t := MethodText(c, m);
    var v := ViewText(n);
    var r := ControlText(c, m, n);
    var k := |t| - 1;
    assert r[k] == t[k] == '>';
    assert r[k + 1..k + 8] == v[..7] == " View: ";
    assert r[k + 8..] == v[7..] == n;
    assert r[k + 8] == n[0];
    assert n[0] == '-' ==> r[k + 9] == n[1];
    assert MatchAt(r, VIEW_KEY, k + 2) by { assert r[k + 2..k + 7] == VIEW_KEY; }
    assert ViewTail(r, k);
    forall x | k < x < |r| ensures !ViewTail(r, x) {
      assert r[x] == v[x - |t|];
      if x - |t| >= 7 {
        assert v[x - |t|] == n[x - |t| - 7];
      }
    }
  }

  /** The control pattern's body on a rendered control line. */
  lemma {:induction false} ControlBodyGroups(c: string, m: string, n: string)
    requires PlainName(c) && PlainName(m) && IdText(n)
    ensures MatchBody(ControlText(c, m, n), true) == Some(Groups(c, m, n))
  {
    var t := MethodText(c, m);
    var r := ControlText(c, m, n);
    var k := |t| - 1;
    assert k == |c| + 2 + |m|;
    RenderedViewTail(c, m, n);
    assert r[..|t|] == t;
    PlainBodyGroups(r, c, m, k);
    NumberRun(r, k + 8, n);
    ControlBodyAt(r, |c|, k, Groups(c, m, n));
  }

  /** The control pattern's body once its '>' and its separator are located. */
  lemma ControlBodyAt(r: string, j: int, k: int, g: Groups)
    requires 0 <= k < |r| && LastViewTail(r, |r|) == k && LastSeparator(r, k - 2) == j && j >= 1
    requires r[..j] == g.className && r[j + 2..k] == g.methodName && ViewNumber(r, k + 8) == g.view
    ensures MatchBody(r, true) == Some(g)
  {
    assert MatchBody(r, true) == ControlFrom(r, k);
    SplitAtSome(r, j, k, g);
  }

  lemma SplitAtSome(r: string, j: int, k: int, g: Groups)
    requires 0 <= k < |r| && r[k] == '>' && LastSeparator(r, k - 2) == j && j >= 1
    requires r[..j] == g.className && r[j + 2..k] == g.methodName
    ensures SplitAt(r, k, g.view) == Some(g)
  {
  }

  /** The control pattern finds class, method and view id in a rendered control line. */
  lemma {:induction false} ControlLineGroups(c: string, m: string, id: int)
    requires PlainName(c) && PlainName(m)
    ensures Find(ControlLine(c, m, id), 0, true) == Some(Groups(c, m, IntToString(id)))
  {
    var n := IntToString(id);
    var r := ControlText(c, m, n);
    var line := ControlLine(c, m, id);
    ControlHead();
    NoStartBefore(line, C_HEAD, 10, true);
    RenderedIdShape(id);
    ControlTextQuoteFree(c, m, n);
    RenderedStart(line, C_HEAD, r, 10);
    ControlBodyGroups(c, m, n);
    FoundAt(line, 10, r, true, Groups(c, m, n));
  }

  /** The first start on a line whose body matches gives the groups `find()` reports. */
  lemma FoundAt(line: string, q: nat, r: string, control: bool, g: Groups)
    requires q <= |line| && StartAt(line, q) && Body(line, q) == r && MatchBody(r, control) == Some(g)
    requires forall x | 0 <= x < q :: !MatchesAt(line, x, control)
    ensures Find(line, 0, control) == Some(g)
  {
    FindLeftmost(line, 0, q, control);
  }

  /** The digits of a rendered id, after at most a leading minus sign. */
  lemma RenderedIdShape(id: int)
    ensures var n := IntToString(id);
      IdText(n) && QuoteFree(n)
  {
    var n := IntToString(id);
    if n[0] == '-' {
      assert n[1..] == NatToString(-id);
    }
  }

  /** A rendered line whose head has "Method:\s<" at `p` holds a start there, and the
      body of that start is the whole one-line rest. */
  lemma RenderedStart(line: string, head: string, r: string, p: nat)
    requires line == head + r && |head| == p + 9 && QuoteFree(r)
    requires head[p..p + 7] == METHOD_KEY && head[p + 7] == ' ' && head[p + 8] == '<'
    ensures StartAt(line, p) && Body(line, p) == r
  {
    assert line[p..p + 7] == head[p..p + 7];
    assert line[p + 7] == head[p + 7] && line[p + 8] == head[p + 8];
    assert line[p + 9..] == r;
    DotEndAll(line, p + 9);
  }

  /** The method pattern finds class and method in a rendered method line. */
  lemma {:induction false} MethodLineGroups(c: string, m: string)
    requires PlainName(c) && PlainName(m)
    ensures Find(MethodLine(c, m), 0, false) == Some(Groups(c, m, ""))
  {
    var line := MethodLine(c, m);
    var r := MethodText(c, m);
    MethodHead();
    NoStartBefore(line, M_HEAD, 9, false);
    MethodTextQuoteFree(c, m);
    RenderedStart(line, M_HEAD, r, 9);
    MethodBodyGroups(c, m);
    FoundAt(line, 9, r, false, Groups(c, m, ""));
  }

  /** The method pattern splits a rendered method body into class and method. */
  lemma MethodBodyGroups(c: string, m: string)
    requires PlainName(c) && PlainName(m)
    ensures MatchBody(MethodText(c, m), false) == Some(Groups(c, m, ""))
  {
    var r := MethodText(c, m);
    var k := |c| + 2 + |m|;
    assert LastClose(r, |r|) == k;
    assert r[..k + 1] == r;
    PlainBodyGroups(r, c, m, k);
  }

  /** A rendered method line does not hold the control tag: its only '<' are at 0 and 17,
      and neither starts "<CONTROL>". */
  lemma {:induction false} MethodLineHasNoControlTag(c: string, m: string)
    requires PlainName(c) && PlainName(m)
    ensures !Contains(MethodLine(c, m), C_TAG) && Contains(MethodLine(c, m), M_TAG)
  {
    var line := MethodLine(c, m);
    var head := M_HEAD;
    MethodHead();
    assert line[..8] == M_TAG;
    assert MatchAt(line, M_TAG, 0);
    assert line == head + c + ": " + m + ">";
    forall i | 0 <= i <= |line| - |C_TAG| ensures !MatchAt(line, C_TAG, i) {
      if i == 0 {
        Mismatch(line, C_TAG, i, 1);
      } else if i < 17 {
        assert line[i] == head[i];
        Mismatch(line, C_TAG, i, 0);
      } else if i == 17 && |c| < 8 {
        assert line[18 + |c|] == ':';
        Mismatch(line, C_TAG, i, 1 + |c|);
      } else if i == 17 {
        assert line[25] == c[7];
        Mismatch(line, C_TAG, i, 8);
      } else {
        if i < 18 + |c| {
          assert line[i] == c[i - 18];
        } else if i < 20 + |c| {
          assert line[i] == ':' || line[i] == ' ';
        } else {
          assert line[i] == m[i - 20 - |c|];
        }
        Mismatch(line, C_TAG, i, 0);
      }
    }
  }

  lemma {:induction false} NoQuotes(line: string)
    requires QuoteFree(line)
    ensures RemoveChar(line, '\'') == line
  {
    RemoveCharAbsent(line, '\'');
  }

  /** Reading back a rendered control line gives its view id, the reported class and the method. */
  lemma {:induction false} ControlLineRoundTrip(c: string, m: string, id: int, scene: Scene)
    requires PlainName(c) && PlainName(m) && InRange(id)
    requires c in scene && m in scene[c].methods
    ensures RegexLogMessage(ControlLine(c, m, id), scene) == Ok(Some(LogData(id, ReportedClass(scene, c), SootMethod(c, m))))
  {
    var n := IntToString(id);
    var line := ControlLine(c, m, id);
    ControlHead();
    RenderedIdShape(id);
    ControlTextQuoteFree(c, m, n);
    QuoteFreeJoin(C_HEAD, ControlText(c, m, n));
    NoQuotes(line);
    assert line[..9] == C_TAG;
    assert MatchAt(line, C_TAG, 0);
    ControlLineGroups(c, m, id);
    ParseIntRoundTrip(id);
    ParsedControl(line, scene, Groups(c, m, n), id);
  }

  /** A quote-free control line whose groups name a known method reads back as those groups. */
  lemma ParsedControl(line: string, scene: Scene, g: Groups, id: int)
    requires Contains(line, C_TAG) && RemoveChar(line, '\'') == line && Find(line, 0, true) == Some(g)
    requires g.className in scene && g.methodName in scene[g.className].methods && ParseInt(g.view) == Ok(id)
    ensures RegexLogMessage(line, scene)
            == Ok(Some(LogData(id, ReportedClass(scene, g.className), SootMethod(g.className, g.methodName))))
  {
  }

  /** Reading back a rendered method line gives id -1, the reported class and the method. */
  lemma {:induction false} MethodLineRoundTrip(c: string, m: string, scene: Scene)
    requires PlainName(c) && PlainName(m)
    requires c in scene && m in scene[c].methods
    ensures RegexLogMessage(MethodLine(c, m), scene) == Ok(Some(LogData(-1, ReportedClass(scene, c), SootMethod(c, m))))
  {
    var line := MethodLine(c, m);
    MethodHead();
    MethodTextQuoteFree(c, m);
    QuoteFreeJoin(M_HEAD, MethodText(c, m));
    NoQuotes(line);
    MethodLineHasNoControlTag(c, m);
    MethodLineGroups(c, m);
    ParsedMethod(line, scene, Groups(c, m, ""));
  }

  /** A quote-free method line whose groups name a known method reads back with id -1. */
  lemma ParsedMethod(line: string, scene: Scene, g: Groups)
    requires !Contains(line, C_TAG) && Contains(line, M_TAG) && RemoveChar(line, '\'') == line
    requires Find(line, 0, false) == Some(g)
    requires g.className in scene && g.methodName in scene[g.className].methods
    ensures RegexLogMessage(line, scene)
            == Ok(Some(LogData(-1, ReportedClass(scene, g.className), SootMethod(g.className, g.methodName))))
  {
  }

  // ---------------------------------------------------------------- applying parsed data to the graph

  function KeyOf(d: LogData): ControlKey {
    ControlKey(d.className, d.id)
  }

  /** `handleInstrumentLog` on parsed data: visit the method vertex with the method's
      signature and, for an id other than -1, the control vertex (class, id); a vertex
      that is missing is only logged. */
  function VisitData(s: GraphState, d: LogData): (t: GraphState)
    ensures t.methods == s.methods && t.controls == s.controls && t.edges == s.edges
    ensures s.visitedMethods <= t.visitedMethods && s.visitedControls <= t.visitedControls
    ensures WellFormed(s) ==> WellFormed(t)
    ensures (Signature(d.sootMethod) in t.visitedMethods) ==
            (Signature(d.sootMethod) in s.methods || Signature(d.sootMethod) in s.visitedMethods)
    ensures t.visitedMethods - s.visitedMethods <= {Signature(d.sootMethod)}
    ensures d.id != -1 && KeyOf(d) in s.controls ==> KeyOf(d) in t.visitedControls
    ensures t.visitedControls - s.visitedControls <= (if d.id == -1 then {} else {KeyOf(d)})
  {
    var signature := Signature(d.sootMethod);
    var s1 := if signature in s.methods then s.(visitedMethods := s.visitedMethods + {signature}) else s;
    if d.id != -1 && KeyOf(d) in s1.controls then s1.(visitedControls := s1.visitedControls + {KeyOf(d)})
    else s1
  }

  /** The vertex `updateGraph` adds for a control it has not seen. */
  function UnknownControl(d: LogData): Control {
    Control(d.id, "Unknown", -1, "Unknown", d.className, [])
  }

  /** `updateGraph` on parsed data: afterwards the method vertex exists and, for an id
      other than -1, so does the control vertex; vertices already there are kept as they are. */
  function AddDataVertices(s: GraphState, d: LogData): (t: GraphState)
    ensures t.methods == s.methods + {Signature(d.sootMethod)}
    ensures t.controls.Keys == s.controls.Keys + (if d.id == -1 then {} else {KeyOf(d)})
    ensures forall k | k in s.controls :: t.controls[k] == s.controls[k]
    ensures d.id != -1 && KeyOf(d) !in s.controls ==> t.controls[KeyOf(d)] == UnknownControl(d)
    ensures t.edges == s.edges && t.visitedMethods == s.visitedMethods && t.visitedControls == s.visitedControls
    ensures WellFormed(s) ==> WellFormed(t)
  {
    var s1 := s.(methods := s.methods + {Signature(d.sootMethod)});
    if d.id != -1 && KeyOf(d) !in s1.controls then s1.(controls := s1.controls[KeyOf(d) := UnknownControl(d)])
    else s1
  }

  /** The edge `updateGraphEdges` adds: none when the method vertex is missing or the id
      is -1; from the control vertex to the method vertex otherwise, with no source when
      the control vertex is missing (the source passes null to `addEdge` then). */
  function EdgeFor(s: GraphState, d: LogData): (e: Option<Edge>)
    ensures e.Some? <==> Signature(d.sootMethod) in s.methods && d.id != -1
    ensures e.Some? ==> e.value.target == MethodVertex(Signature(d.sootMethod))
    ensures e.Some? ==> (e.value.source.Some? <==> KeyOf(d) in s.controls)
    ensures e.Some? && e.value.source.Some? ==> e.value.source.value == ControlVertex(KeyOf(d))
  {
    var signature := Signature(d.sootMethod);
    if signature !in s.methods || d.id == -1 then None
    else
      var source := if KeyOf(d) in s.controls then Some(ControlVertex(KeyOf(d))) else None;
      Some(Edge(source, MethodVertex(signature)))
  }

  /** What the engine does with one parsed line. */
  datatype Update = Visit | AddVertices | AddEdge

  function ApplyData(u: Update, s: GraphState, d: LogData): GraphState {
    match u
    case Visit => VisitData(s, d)
    case AddVertices => AddDataVertices(s, d)
    case AddEdge => if EdgeFor(s, d).Some? then s.(edges := s.edges + {EdgeFor(s, d).value}) else s
  }

  /** The graph after one log line: unchanged when the line yields nothing, the exception
      when parsing throws. */
  function ApplyLine(u: Update, s: GraphState, scene: Scene, logMessage: string): (r: Result<GraphState>)
    ensures r.Err? <==> RegexLogMessage(logMessage, scene).Err?
    ensures RegexLogMessage(logMessage, scene) == Ok(None) ==> r == Ok(s)
  {
    match RegexLogMessage(logMessage, scene)
    case Err(e) => Err(e)
    case Ok(None) => Ok(s)
    case Ok(Some(d)) => Ok(ApplyData(u, s, d))
  }

  /** Visiting the same data twice is visiting it once. */
  lemma VisitIdempotent(s: GraphState, d: LogData)
    ensures VisitData(VisitData(s, d), d) == VisitData(s, d)
  {
  }

  /** Visiting never lowers either coverage figure. */
  lemma {:induction false} VisitCoverageMonotone(s: GraphState, d: LogData)
    ensures VisitedMore(s, VisitData(s, d))
    ensures AtMost(CoverageOf(s), CoverageOf(VisitData(s, d)))
  {
    CoverageGrows(s, VisitData(s, d));
  }

  /** After `updateGraph` on the same data, `updateGraphEdges` always finds both vertices:
      it adds the control-to-method edge exactly when the id is not -1, never a sourceless one. */
  lemma {:induction false} EdgeAfterVertices(s: GraphState, d: LogData)
    ensures EdgeFor(AddDataVertices(s, d), d) ==
              if d.id == -1 then None
              else Some(Edge(Some(ControlVertex(KeyOf(d))), MethodVertex(Signature(d.sootMethod))))
  {
    var t := AddDataVertices(s, d);
    assert Signature(d.sootMethod) in t.methods;
    assert d.id != -1 ==> KeyOf(d) in t.controls.Keys;
  }

  /** `handleInstrumentLog(logMessage, droidGraph)` */
  method HandleInstrumentLog(logMessage: string, scene: Scene, g: DroidGraph) returns (r: Result<()>)
    modifies g
    ensures ApplyLine(Visit, old(g.State()), scene, logMessage) == if r.Ok? then Ok(g.State()) else Err(r.error)
    ensures r.Err? ==> g.State() == old(g.State())
  {
    var logDataGroup := RegexLogMessage(logMessage, scene);
    if logDataGroup.Err? {
      return Err(logDataGroup.error);
    }
    if logDataGroup.value.Some? {
      var d := logDataGroup.value.value;
      var signature := Signature(d.sootMethod);
      if g.HasMethodVertex(signature) {
        g.VisitMethod(signature);
      }
      if d.id != -1 {
        var key := KeyOf(d);
        if g.HasControlVertex(key) {
          g.VisitControl(key);
        }
      }
    }
    return Ok(());
  }

  /** `updateGraph(logMessage, droidGraph)` */
  method UpdateGraph(logMessage: string, scene: Scene, g: DroidGraph) returns (r: Result<()>)
    modifies g
    ensures ApplyLine(AddVertices, old(g.State()), scene, logMessage) == if r.Ok? then Ok(g.State()) else Err(r.error)
    ensures r.Err? ==> g.State() == old(g.State())
  {
    var logDataGroup := RegexLogMessage(logMessage, scene);
    if logDataGroup.Err? {
      return Err(logDataGroup.error);
    }
    if logDataGroup.value.Some? {
      ghost var s0 := g.State();
      var d := logDataGroup.value.value;
      var signature := Signature(d.sootMethod);
      if !g.HasMethodVertex(signature) {
        g.AddMethodVertex(signature);
      }
      assert g.State() == s0.(methods := s0.methods + {signature});
      if d.id != -1 {
        var key := KeyOf(d);
        if !g.HasControlVertex(key) {
          g.AddControlVertex(key, UnknownControl(d));
        }
      }
    }
    return Ok(());
  }

  /** `updateGraphEdges(logMessage, droidGraph)` */
  method UpdateGraphEdges(logMessage: string, scene: Scene, g: DroidGraph) returns (r: Result<()>)
    modifies g
    ensures ApplyLine(AddEdge, old(g.State()), scene, logMessage) == if r.Ok? then Ok(g.State()) else Err(r.error)
    ensures r.Err? ==> g.State() == old(g.State())
  {
    var logDataGroup := RegexLogMessage(logMessage, scene);
    if logDataGroup.Err? {
      return Err(logDataGroup.error);
    }
    if logDataGroup.value.Some? {
      var d := logDataGroup.value.value;
      var signature := Signature(d.sootMethod);
      if !g.HasMethodVertex(signature) {
        return Ok(());
      }
      if d.id == -1 {
        return Ok(());
      }
      var key := KeyOf(d);
      var source := if g.HasControlVertex(key) then Some(ControlVertex(key)) else None;
      assert EdgeFor(g.State(), d) == Some(Edge(source, MethodVertex(signature)));
      g.AddEdge(Edge(source, MethodVertex(signature)));
    }
    return Ok(());
  }
}
