/**
 * The Wavefront OBJ reader (FileIO::read and FileIO::objLoader): lines are trimmed, blank
 * and comment lines skipped, "v" lines append a vertex, "f" lines turn their vertex
 * references into triangles, fanning out faces of more than three vertices. Every other
 * keyword is ignored.
 *
 * The file arrives as its sequence of lines; `bad(i)` says whether reading line i leaves
 * the stream in its bad state. Reading three floats from the rest of a "v" line is the
 * parameter `vertexOf` (None when the extraction fails): float parsing is not modelled.
 */
module ObjReader {
  import opened Wrappers
  import CInt

  type Point = (real, real, real)
  type Face = (int, int, int)

  datatype Mesh = Mesh(vertices: seq<Point>, triangles: seq<Face>)

  // ---------------------------------------------------------------------------------
  // Characters and trimming

  /** isspace in the C locale. */
  predicate IsSpace(c: char)
  {
    c == ' ' || c == '\t' || c == '\n' || c == '\r' || c as int == 11 || c as int == 12
  }

  /** The characters trimmed from both ends of a line: " \t\r\n". */
  predicate IsTrimChar(c: char)
  {
    c == ' ' || c == '\t' || c == '\r' || c == '\n'
  }

  /** find_first_not_of(" \t\r\n"), with |line| standing for npos. */
  function FirstKept(line: string): (i: nat)
    ensures i <= |line|
  {
    if |line| == 0 || !IsTrimChar(line[0]) then 0
    else 1 + FirstKept(line[1..])
  }

  lemma {:induction false} FirstKeptSpec(line: string)
    ensures forall k :: 0 <= k < FirstKept(line) ==> IsTrimChar(line[k])
    ensures FirstKept(line) < |line| ==> !IsTrimChar(line[FirstKept(line)])
  {
    if |line| > 0 && IsTrimChar(line[0]) {
      FirstKeptSpec(line[1..]);
    }
  }

  /** One past find_last_not_of(" \t\r\n"), with 0 standing for npos. */
  function KeptEnd(line: string): (j: nat)
    ensures j <= |line|
  {
    if |line| == 0 || !IsTrimChar(line[|line| - 1]) then |line|
    else KeptEnd(line[..|line| - 1])
  }

  lemma {:induction false} KeptEndSpec(line: string)
    ensures forall k :: KeptEnd(line) <= k < |line| ==> IsTrimChar(line[k])
    ensures KeptEnd(line) > 0 ==> !IsTrimChar(line[KeptEnd(line) - 1])
  {
    if |line| > 0 && IsTrimChar(line[|line| - 1]) {
      KeptEndSpec(line[..|line| - 1]);
    }
  }

  /** The line without its leading and trailing " \t\r\n", or "" when nothing else is left. */
  function Trim(line: string): (t: string)
    ensures |t| <= |line|
  {
    var i := FirstKept(line);
    if i == |line| then ""
    else
      var j := KeptEnd(line);
      if i < j then line[i..j] else ""
  }

  /** Trimming removes exactly the blanks at both ends: what is left is empty only for an all-blank line. */
  lemma TrimSpec(line: string)
    ensures Trim(line) == "" <==> forall k :: 0 <= k < |line| ==> IsTrimChar(line[k])
    ensures Trim(line) != "" ==> !IsTrimChar(Trim(line)[0]) && !IsTrimChar(Trim(line)[|Trim(line)| - 1])
  {
    FirstKeptSpec(line);
    KeptEndSpec(line);
  }

  /** A line that starts and ends with kept characters is its own trimmed form. */
  lemma TrimKeeps(line: string)
    requires |line| > 0 && !IsTrimChar(line[0]) && !IsTrimChar(line[|line| - 1])
    ensures Trim(line) == line
  {
    assert FirstKept(line) == 0;
    assert KeptEnd(line) == |line|;
  }

  /** Blank and comment lines, and lines whose first kept character is another space, are skipped. */
  predicate Skipped(t: string)
  {
    |t| == 0 || t[0] == '#' || IsSpace(t[0])
  }

  /** The length of the first whitespace-delimited word (what `stream >> keyWrd` reads). */
  function WordLength(s: string): (n: nat)
    ensures n <= |s|
    ensures |s| > 0 && !IsSpace(s[0]) ==> n > 0
  {
    if |s| == 0 || IsSpace(s[0]) then 0
    else 1 + WordLength(s[1..])
  }

  /** The whitespace-delimited words of a string, as repeated `>>` into a string reads them. */
  function Words(s: string): seq<string>
    decreases |s|
  {
    if |s| == 0 then []
    else if IsSpace(s[0]) then Words(s[1..])
    else
      var n := WordLength(s);
      [s[..n]] + Words(s[n..])
  }

  // ---------------------------------------------------------------------------------
  // Integers, as `>>` into an int reads them (no leading whitespace in the text read)

  predicate IsDigit(c: char)
  {
    '0' <= c <= '9'
  }

  function DigitValue(c: char): nat
    requires IsDigit(c)
  {
    c as int - '0' as int
  }

  predicate AllDigits(s: string)
  {
    forall k :: 0 <= k < |s| ==> IsDigit(s[k])
  }

  /** The decimal value of a string of digits. */
  function DigitsValue(s: string): nat
    requires AllDigits(s)
  {
    if |s| == 0 then 0
    else DigitsValue(s[..|s| - 1]) * 10 + DigitValue(s[|s| - 1])
  }

  /** The number of leading digits. */
  function DigitRun(s: string): (n: nat)
    ensures n <= |s| && AllDigits(s[..n])
    ensures n < |s| ==> !IsDigit(s[n])
  {
    if |s| == 0 || !IsDigit(s[0]) then 0
    else
      var n := 1 + DigitRun(s[1..]);
      assert s[..n] == [s[0]] + s[1..][..n - 1];
      n
  }

  /** The integer a stream extracts from the front of s: an optional sign, then at least one digit. */
  function LeadingInt(s: string): (r: Option<int>)
  {
    if |s| > 0 && (s[0] == '-' || s[0] == '+') then
      var n := DigitRun(s[1..]);
      if n == 0 then None
      else if s[0] == '-' then Some(-(DigitsValue(s[1..][..n]) as int))
      else Some(DigitsValue(s[1..][..n]))
    else
      var n := DigitRun(s);
      if n == 0 then None else Some(DigitsValue(s[..n]))
  }

  /** The extraction whose failure is not checked: a failed `>>` stores 0. */
  function IntOrZero(s: string): int
  {
    match LeadingInt(s)
    case Some(v) => v
    case None => 0
  }

  /** The decimal text of a natural number. */
  function Decimal(n: nat): (s: string)
    ensures |s| > 0 && AllDigits(s)
  {
    var d := ['0' + (n % 10) as char];
    if n < 10 then d else Decimal(n / 10) + d
  }

  lemma {:induction false} DecimalValue(n: nat)
    ensures DigitsValue(Decimal(n)) == n
  {
    var s := Decimal(n);
    if n >= 10 {
      DecimalValue(n / 10);
      assert s[..|s| - 1] == Decimal(n / 10);
    }
  }

  lemma {:induction false} DigitRunOfDigits(s: string, suffix: string)
    requires AllDigits(s) && (suffix == "" || !IsDigit(suffix[0]))
    ensures DigitRun(s + suffix) == |s|
  {
    if |s| > 0 {
      assert (s + suffix)[1..] == s[1..] + suffix;
      DigitRunOfDigits(s[1..], suffix);
    } else {
      assert s + suffix == suffix;
    }
  }

  /** Reading an integer back from its decimal text, signed or not, followed by a non-digit or nothing. */
  lemma DecimalParses(n: nat, suffix: string)
    requires suffix == "" || !IsDigit(suffix[0])
    ensures LeadingInt(Decimal(n) + suffix) == Some(n)
    ensures LeadingInt("-" + Decimal(n) + suffix) == Some(-(n as int))
  {
    var s := Decimal(n);
    DecimalValue(n);
    DigitRunOfDigits(s, suffix);
    assert (s + suffix)[..|s|] == s;
    var t := "-" + s + suffix;
    assert t[1..] == s + suffix;
  }

  // ---------------------------------------------------------------------------------
  // Face vertex references

  /**
   * The vertex handle of an OBJ vertex reference: a negative reference counts back from
   * the `count` vertices read so far (-1 is the last), and references count from one.
   */
  function Resolve(value: int, count: nat): int
  {
    (if value < 0 then count + value + 1 else value) - 1
  }

  /** Valid references, positive or negative, resolve to the vertices read so far; -1 is the last. */
  lemma ResolveInRange(value: int, count: nat)
    requires 1 <= value <= count || -(count as int) <= value <= -1
    ensures 0 <= Resolve(value, count) < count
    ensures value > 0 ==> Resolve(value, count) == value - 1
    ensures value < 0 ==> Resolve(value, count) == count + value
    ensures value == -1 ==> Resolve(value, count) == count - 1
  {
  }

  /** The index of the first '/', or |s| for npos. */
  function SlashAt(s: string): (i: nat)
    ensures i <= |s|
    ensures forall k :: 0 <= k < i ==> s[k] != '/'
    ensures i < |s| ==> s[i] == '/'
  {
    if |s| == 0 || s[0] == '/' then 0
    else 1 + SlashAt(s[1..])
  }

  /**
   * The handle a face word "v", "v/vt", "v/vt/vn" or "v//vn" contributes: its first
   * component resolved, nothing when that component is empty, and nothing when a word
   * without '/' holds no integer. A first component that holds no integer reads as 0.
   */
  function HandleOf(word: string, count: nat): Option<int>
  {
    var slash := SlashAt(word);
    if slash < |word| then
      if slash == 0 then None else Some(Resolve(IntOrZero(word[..slash]), count))
    else
      match LeadingInt(word)
      case Some(v) => Some(Resolve(v, count))
      case None => None
  }

  /** A positive reference k, alone or followed by further components, is handle k - 1. */
  lemma HandleOfPositive(k: nat, count: nat, more: string)
    ensures HandleOf(Decimal(k), count) == Some(k - 1)
    ensures HandleOf(Decimal(k) + "/" + more, count) == Some(k - 1)
  {
    var s := Decimal(k);
    DecimalParses(k, "");
    assert s + "" == s;
    assert SlashAt(s) == |s|;
    var u := s + "/" + more;
    assert SlashAt(u) == |s| by {
      assert u[|s|] == '/';
      assert forall i :: 0 <= i < |s| ==> u[i] == s[i];
    }
    assert u[..|s|] == s;
  }

  /** A negative reference -k counts back from the vertices read so far. */
  lemma HandleOfNegative(k: nat, count: nat)
    requires k > 0
    ensures HandleOf("-" + Decimal(k), count) == Some(count - k)
  {
    var s := Decimal(k);
    DecimalParses(k, "");
    assert "-" + s + "" == "-" + s;
    var t := "-" + s;
    forall i | 0 <= i < |t|
      ensures t[i] != '/'
    {
      if i > 0 {
        assert t[i] == s[i - 1];
      }
    }
    assert SlashAt(t) == |t|;
  }

  /** A word whose first component is empty ("/2", "//3") contributes no handle. */
  lemma HandleOfEmptyFirst(count: nat, more: string)
    ensures HandleOf("/" + more, count) == None
  {
    assert SlashAt("/" + more) == 0;
  }

  /** The handles of a face line's words, in order. */
  function FaceHandles(words: seq<string>, count: nat): seq<int>
  {
    if |words| == 0 then []
    else
      FaceHandles(words[..|words| - 1], count) +
        match HandleOf(words[|words| - 1], count)
        case Some(h) => [h]
        case None => []
  }

  /**
   * The triangles of a face: a fan (v0, v(i+1), v(i+2)) over a polygon of more than three
   * vertices, the face itself for a triangle, nothing for fewer than three vertices.
   */
  function Fan(vh: seq<int>): seq<Face>
  {
    if |vh| > 3 then
      seq(|vh| - 2, i requires 0 <= i < |vh| - 2 => (vh[0], vh[i + 1], vh[i + 2]))
    else if |vh| == 3 then [(vh[0], vh[1], vh[2])]
    else []
  }

  /** n vertices make n - 2 fan triangles sharing the first vertex; fewer than three make none. */
  lemma FanShape(vh: seq<int>)
    ensures |Fan(vh)| == if |vh| >= 3 then |vh| - 2 else 0
    ensures forall i :: 0 <= i < |Fan(vh)| ==> Fan(vh)[i] == (vh[0], vh[i + 1], vh[i + 2])
  {
  }

  /** A quad splits into the two triangles sharing its first vertex. */
  lemma QuadFan(a: int, b: int, c: int, d: int)
    ensures Fan([a, b, c, d]) == [(a, b, c), (a, c, d)]
  {
    FanShape([a, b, c, d]);
  }

  // ---------------------------------------------------------------------------------
  // Lines

  /** The triangles of a face line's rest, resolved against `count` vertices. */
  function FaceTriangles(rest: string, count: nat): seq<Face>
  {
    Fan(FaceHandles(Words(rest), count))
  }

  /** What a line with the given keyword does: "v" appends a vertex, "f" triangles, anything else nothing. */
  function KeywordStep(m: Mesh, keyword: string, rest: string, vertexOf: string -> Option<Point>): Mesh
  {
    if keyword == "v" then
      match vertexOf(rest)
      case Some(p) => m.(vertices := m.vertices + [p])
      case None => m
    else if keyword == "f" then m.(triangles := m.triangles + FaceTriangles(rest, |m.vertices|))
    else m
  }

  /** What one line does to the vertices and triangles read so far. */
  function LineStep(m: Mesh, line: string, vertexOf: string -> Option<Point>): Mesh
  {
    var t := Trim(line);
    if Skipped(t) then m
    else KeywordStep(m, t[..WordLength(t)], t[WordLength(t)..], vertexOf)
  }

  /** r holds m's vertices and triangles in front. */
  predicate Extends(m: Mesh, r: Mesh)
  {
    |m.vertices| <= |r.vertices| && r.vertices[..|m.vertices|] == m.vertices
    && |m.triangles| <= |r.triangles| && r.triangles[..|m.triangles|] == m.triangles
  }

  /** A line appends at most one vertex, or else some triangles, and never removes anything. */
  lemma LineStepAppends(m: Mesh, line: string, vertexOf: string -> Option<Point>)
    ensures var r := LineStep(m, line, vertexOf);
      Extends(m, r) && |r.vertices| <= |m.vertices| + 1
      && (r.vertices == m.vertices || r.triangles == m.triangles)
  {
    var r := LineStep(m, line, vertexOf);
    assert r.vertices[..|m.vertices|] == m.vertices;
    assert r.triangles[..|m.triangles|] == m.triangles;
  }

  /** The mesh after the first k lines. */
  function ParsePrefix(lines: seq<string>, vertexOf: string -> Option<Point>, m0: Mesh, k: nat): Mesh
    requires k <= |lines|
  {
    if k == 0 then m0 else LineStep(ParsePrefix(lines, vertexOf, m0, k - 1), lines[k - 1], vertexOf)
  }

  lemma ParseNext(lines: seq<string>, vertexOf: string -> Option<Point>, m0: Mesh, i: nat)
    requires i < |lines|
    ensures ParsePrefix(lines, vertexOf, m0, i + 1) == LineStep(ParsePrefix(lines, vertexOf, m0, i), lines[i], vertexOf)
  {
  }

  /** Reading only appends: what the vectors held before is kept in front. */
  lemma {:induction false} ParseAppends(lines: seq<string>, vertexOf: string -> Option<Point>, m0: Mesh, k: nat)
    requires k <= |lines|
    ensures Extends(m0, ParsePrefix(lines, vertexOf, m0, k))
  {
    if k > 0 {
      ParseAppends(lines, vertexOf, m0, k - 1);
      var p := ParsePrefix(lines, vertexOf, m0, k - 1);
      var m := ParsePrefix(lines, vertexOf, m0, k);
      LineStepAppends(p, lines[k - 1], vertexOf);
      assert m.vertices[..|m0.vertices|] == m.vertices[..|p.vertices|][..|m0.vertices|];
      assert m.triangles[..|m0.triangles|] == m.triangles[..|p.triangles|][..|m0.triangles|];
    }
  }

  /** A line of blanks, or a comment after any leading blanks, leaves the mesh as it is. */
  lemma CommentLineSkipped(m: Mesh, pad: string, comment: string, vertexOf: string -> Option<Point>)
    requires forall k :: 0 <= k < |pad| ==> IsTrimChar(pad[k])
    ensures LineStep(m, pad, vertexOf) == m
    ensures LineStep(m, pad + "#" + comment, vertexOf) == m
  {
    var line := pad + "#" + comment;
    assert line[|pad|] == '#';
    TrimSpec(pad);
    FirstKeptSpec(line);
    KeptEndSpec(line);
    assert FirstKept(line) == |pad|;
  }

  /** A trimmed "v" line appends a vertex exactly when three floats can be read from the rest. */
  lemma VertexLine(m: Mesh, rest: string, vertexOf: string -> Option<Point>)
    requires |rest| > 0 && IsSpace(rest[0]) && !IsTrimChar(rest[|rest| - 1])
    ensures LineStep(m, "v" + rest, vertexOf) ==
      match vertexOf(rest)
      case Some(p) => m.(vertices := m.vertices + [p])
      case None => m
  {
    var line := "v" + rest;
    TrimKeeps(line);
    assert line[1..] == rest;
    assert WordLength(line) == 1;
    assert line[..1] == "v";
    assert LineStep(m, line, vertexOf) == KeywordStep(m, "v", rest, vertexOf);
  }

  /** A trimmed "f" line appends the fan of its handles, resolved against the vertices read so far. */
  lemma FaceLine(m: Mesh, rest: string, vertexOf: string -> Option<Point>)
    requires |rest| > 0 && IsSpace(rest[0]) && !IsTrimChar(rest[|rest| - 1])
    ensures LineStep(m, "f" + rest, vertexOf) ==
      m.(triangles := m.triangles + FaceTriangles(rest, |m.vertices|))
  {
    var line := "f" + rest;
    TrimKeeps(line);
    assert line[1..] == rest;
    assert WordLength(line) == 1;
    assert line[..1] == "f";
    assert LineStep(m, line, vertexOf) == KeywordStep(m, "f", rest, vertexOf);
  }

  // ---------------------------------------------------------------------------------
  // The reading loops

  /** The component loop over one face word: only the first component is stored. */
  method ReadHandle(word: string, count: nat) returns (h: Option<int>)
    ensures h == HandleOf(word, count)
  {
    var vertex := word;
    var component := 0;
    h := None;
    var more := true;
    while more
      invariant component == 0 && more ==> vertex == word && h.None?
      invariant component > 0 || !more ==> h == HandleOf(word, count)
      decreases if more then |vertex| + 1 else 0
    {
      var found := SlashAt(vertex);
      if found < |vertex| {
        if found == 0 {
          vertex := vertex[found + 1..];
          component := component + 1;
          more := vertex != "";
          continue;
        }
        var value := IntOrZero(vertex[..found]);
        vertex := vertex[found + 1..];
        if component == 0 {
          h := Some(Resolve(value, count));
        }
      } else {
        var parsed := LeadingInt(vertex);
        vertex := "";
        if parsed.None? {
          more := false;
          continue;
        }
        if component == 0 {
          h := Some(Resolve(parsed.value, count));
        }
      }
      component := component + 1;
      more := vertex != "";
    }
  }

  /** The word loop of a face line. */
  method ReadFace(rest: string, count: nat) returns (vh: seq<int>)
    ensures vh == FaceHandles(Words(rest), count)
  {
    var words := Words(rest);
    vh := [];
    var i := 0;
    while i < |words|
      invariant 0 <= i <= |words|
      invariant vh == FaceHandles(words[..i], count)
    {
      var h := ReadHandle(words[i], count);
      assert words[..i + 1][..i] == words[..i];
      if h.Some? {
        vh := vh + [h.value];
      }
      i := i + 1;
    }
    assert words[..|words|] == words;
  }

  /** Triangulation on the fly: the fan for more than three handles, the face itself for three, nothing below. */
  method Triangulate(vh: seq<int>) returns (tris: seq<Face>)
    ensures tris == Fan(vh)
  {
    tris := [];
    if |vh| > 3 {
      var k := 0;
      var i := 0;
      while i < |vh| - 2
        invariant 0 <= i <= |vh| - 2
        invariant tris == Fan(vh)[..i]
      {
        CInt.DivModUnique(k + 0, |vh|, 0, k + 0);
        CInt.DivModUnique(k + i + 1, |vh|, 0, k + i + 1);
        CInt.DivModUnique(k + i + 2, |vh|, 0, k + i + 2);
        tris := tris + [(vh[(k + 0) % |vh|], vh[(k + i + 1) % |vh|], vh[(k + i + 2) % |vh|])];
        i := i + 1;
      }
    } else if |vh| == 3 {
      tris := [(vh[0], vh[1], vh[2])];
    }
  }

  /** One pass of the line loop: trim, skip blanks and comments, dispatch on the keyword. */
  method ReadLine(m0: Mesh, raw: string, vertexOf: string -> Option<Point>) returns (m: Mesh)
    ensures m == LineStep(m0, raw, vertexOf)
  {
    m := m0;
    var line := Trim(raw);
    if line == "" || line[0] == '#' || IsSpace(line[0]) {
      return;
    }
    var n := WordLength(line);
    var keyword, rest := line[..n], line[n..];
    if keyword == "v" {
      var p := vertexOf(rest);
      if p.Some? {
        m := m.(vertices := m.vertices + [p.value]);
      }
    } else if keyword == "f" {
      var vh := ReadFace(rest, |m.vertices|);
      var tris := Triangulate(vh);
      m := m.(triangles := m.triangles + tris);
    }
  }

  method ReadNextLine(lines: seq<string>, vertexOf: string -> Option<Point>, m0: Mesh, i: nat, m: Mesh)
    returns (m': Mesh)
    requires i < |lines| && m == ParsePrefix(lines, vertexOf, m0, i)
    ensures m' == ParsePrefix(lines, vertexOf, m0, i + 1)
  {
    m' := ReadLine(m, lines[i], vertexOf);
    ParseNext(lines, vertexOf, m0, i);
  }

  /** The first line from `from` on whose read leaves the stream bad, or n when there is none. */
  function FirstBad(bad: nat -> bool, from: nat, n: nat): (r: nat)
    requires from <= n
    ensures from <= r <= n
    ensures forall j :: from <= j < r ==> !bad(j)
    ensures r < n ==> bad(r)
    decreases n - from
  {
    if from == n then n
    else if bad(from) then from
    else FirstBad(bad, from + 1, n)
  }

  /**
   * FileIO::read: every line in order until the stream goes bad, which fails the read and
   * keeps what was appended so far.
   */
  method Read(lines: seq<string>, bad: nat -> bool, vertexOf: string -> Option<Point>, m0: Mesh)
    returns (ok: bool, m: Mesh)
    ensures ok <==> forall i :: 0 <= i < |lines| ==> !bad(i)
    ensures m == ParsePrefix(lines, vertexOf, m0, FirstBad(bad, 0, |lines|))
  {
    m := m0;
    var i := 0;
    while i < |lines|
      invariant 0 <= i <= |lines|
      invariant forall j :: 0 <= j < i ==> !bad(j)
      invariant FirstBad(bad, i, |lines|) == FirstBad(bad, 0, |lines|)
      invariant m == ParsePrefix(lines, vertexOf, m0, i)
    {
      if bad(i) {
        return false, m;
      }
      m := ReadNextLine(lines, vertexOf, m0, i, m);
      i := i + 1;
    }
    return true, m;
  }

  /** objLoader: false when the file cannot be opened, with nothing read; otherwise the read's result. */
  method ObjLoader(canOpen: bool, lines: seq<string>, bad: nat -> bool, vertexOf: string -> Option<Point>, m0: Mesh)
    returns (ok: bool, m: Mesh)
    ensures !canOpen ==> !ok && m == m0
    ensures canOpen ==> (ok <==> forall i :: 0 <= i < |lines| ==> !bad(i))
    ensures canOpen ==> m == ParsePrefix(lines, vertexOf, m0, FirstBad(bad, 0, |lines|))
  {
    if !canOpen {
      return false, m0;
    }
    ok, m := Read(lines, bad, vertexOf, m0);
  }
}
