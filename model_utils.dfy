/**
 * The Wavefront OBJ loader's per-line logic: each line is split on '/' and
 * ' ' with empty pieces dropped, and dispatched on its first token. `v`, `vn`
 * and `vt` lines add a position, a normal or a texture coordinate; an `f` line
 * adds a triangle whose nine indices are 1-based references into the lists
 * built so far. Reading the file is left out: the loader works on its lines.
 */
module ModelUtils {
  import opened Wrappers
  import opened Linalg
  import opened TriangleData

  const USIZE_MAX: int := 0xFFFF_FFFF_FFFF_FFFF

  // ---------------------------------------------------------------------------
  // Tokenising
  // ---------------------------------------------------------------------------

  predicate IsSeparator(c: char) {
    c == '/' || c == ' '
  }

  /** No separator inside. */
  predicate Clean(piece: string) {
    forall i | 0 <= i < |piece| :: !IsSeparator(piece[i])
  }

  /** `str::split(['/', ' '])`: the pieces between separators, empty pieces included. */
  function Split(s: string): (pieces: seq<string>)
    ensures |pieces| >= 1
    decreases |s|
  {
    if s == [] then [[]]
    else
      var rest := Split(s[..|s| - 1]);
      var c := s[|s| - 1];
      if IsSeparator(c) then rest + [[]]
      else rest[..|rest| - 1] + [rest[|rest| - 1] + [c]]
  }

  /** The separators of `s`, in order. */
  function Separators(s: string): (seps: string)
    ensures forall i | 0 <= i < |seps| :: IsSeparator(seps[i])
    decreases |s|
  {
    if s == [] then []
    else if IsSeparator(s[|s| - 1]) then Separators(s[..|s| - 1]) + [s[|s| - 1]]
    else Separators(s[..|s| - 1])
  }

  /** Pieces glued back together with one separator between neighbours. */
  function Join(pieces: seq<string>, seps: string): string
    requires |pieces| == |seps| + 1
    decreases |seps|
  {
    if seps == [] then pieces[0]
    else Join(pieces[..|pieces| - 1], seps[..|seps| - 1]) + [seps[|seps| - 1]] + pieces[|pieces| - 1]
  }

  /** Split on a string one character longer. */
  lemma SplitSnoc(s: string, c: char)
    ensures var rest := Split(s);
      Split(s + [c]) == if IsSeparator(c) then rest + [[]] else rest[..|rest| - 1] + [rest[|rest| - 1] + [c]]
    ensures Separators(s + [c]) == if IsSeparator(c) then Separators(s) + [c] else Separators(s)
  {
    assert (s + [c])[..|s|] == s;
  }

  /** There is one piece more than separators, and no piece holds a separator. */
  lemma {:induction false} SplitShape(s: string)
    ensures |Split(s)| == |Separators(s)| + 1
    ensures forall i | 0 <= i < |Split(s)| :: Clean(Split(s)[i])
    decreases |s|
  {
    if s != [] {
      var init, c := s[..|s| - 1], s[|s| - 1];
      assert s == init + [c];
      SplitShape(init);
      SplitSnoc(init, c);
      var rest := Split(init);
      if IsSeparator(c) {
        assert Split(s) == rest + [[]];
      } else {
        var last := rest[|rest| - 1] + [c];
        assert Clean(rest[|rest| - 1]);
        assert Clean(last);
        assert Split(s) == rest[..|rest| - 1] + [last];
      }
    }
  }

  lemma JoinAppendEmpty(pieces: seq<string>, seps: string, c: char)
    requires |pieces| == |seps| + 1
    ensures Join(pieces + [[]], seps + [c]) == Join(pieces, seps) + [c]
  {
    assert (pieces + [[]])[..|pieces|] == pieces;
    assert (seps + [c])[..|seps|] == seps;
  }

  lemma JoinExtendLast(pieces: seq<string>, seps: string, c: char)
    requires |pieces| == |seps| + 1
    ensures Join(pieces[..|pieces| - 1] + [pieces[|pieces| - 1] + [c]], seps) == Join(pieces, seps) + [c]
  {
    var longer := pieces[..|pieces| - 1] + [pieces[|pieces| - 1] + [c]];
    if seps != [] {
      assert longer[..|longer| - 1] == pieces[..|pieces| - 1];
    }
  }

  /** Splitting is undone by joining with the separators it removed. */
  lemma {:induction false} SplitJoin(s: string)
    ensures |Split(s)| == |Separators(s)| + 1
    ensures Join(Split(s), Separators(s)) == s
    decreases |s|
  {
    SplitShape(s);
    if s != [] {
      var init, c := s[..|s| - 1], s[|s| - 1];
      assert s == init + [c];
      SplitJoin(init);
      SplitSnoc(init, c);
      if IsSeparator(c) {
        JoinAppendEmpty(Split(init), Separators(init), c);
      } else {
        JoinExtendLast(Split(init), Separators(init), c);
      }
    }
  }

  /** The non-empty pieces, in order. */
  function NonEmpty(pieces: seq<string>): (tokens: seq<string>)
    ensures |tokens| <= |pieces|
    ensures forall i | 0 <= i < |tokens| :: tokens[i] != [] && tokens[i] in pieces
    ensures (forall i | 0 <= i < |pieces| :: pieces[i] != []) ==> tokens == pieces
    ensures (forall i | 0 <= i < |pieces| :: pieces[i] == []) ==> tokens == []
    decreases |pieces|
  {
    if pieces == [] then []
    else if pieces[0] == [] then NonEmpty(pieces[1..])
    else [pieces[0]] + NonEmpty(pieces[1..])
  }

  /** Filtering distributes over concatenation: each part keeps its own non-empty pieces, in order. */
  lemma {:induction false} NonEmptyAppend(a: seq<string>, b: seq<string>)
    ensures NonEmpty(a + b) == NonEmpty(a) + NonEmpty(b)
    decreases |a|
  {
    if a != [] {
      assert (a + b)[0] == a[0];
      assert (a + b)[1..] == a[1..] + b;
      NonEmptyAppend(a[1..], b);
    } else {
      assert a + b == b;
    }
  }

  /** One piece survives the filter exactly when it is non-empty. */
  lemma NonEmptySingle(p: string)
    ensures NonEmpty([p]) == if p == [] then [] else [p]
  {
    assert [p][1..] == [];
  }

  /** The tokens of a line: split on '/' and ' ', empty pieces dropped. */
  function Tokenize(line: string): seq<string> {
    NonEmpty(Split(line))
  }

  /** Every token is non-empty and holds no separator. */
  lemma TokensClean(line: string)
    ensures forall i | 0 <= i < |Tokenize(line)| :: Tokenize(line)[i] != [] && Clean(Tokenize(line)[i])
  {
    SplitShape(line);
  }

  /** A piece without separators splits to itself. */
  lemma {:induction false} SplitWord(w: string)
    requires Clean(w)
    ensures Split(w) == [w]
    decreases |w|
  {
    if w != [] {
      var init, d := w[..|w| - 1], w[|w| - 1];
      assert w == init + [d];
      assert Clean(init);
      SplitWord(init);
      SplitSnoc(init, d);
    }
  }

  /** A separator followed by a clean piece adds exactly that piece, empty or not. */
  lemma {:induction false} SplitAfterSeparator(s: string, c: char, w: string)
    requires IsSeparator(c) && Clean(w)
    ensures Split(s + [c] + w) == Split(s) + [w]
    decreases |w|
  {
    if w == [] {
      assert s + [c] + w == s + [c];
      SplitSnoc(s, c);
    } else {
      var init, d := w[..|w| - 1], w[|w| - 1];
      assert s + [c] + w == (s + [c] + init) + [d];
      assert Clean(init);
      SplitAfterSeparator(s, c, init);
      SplitSnoc(s + [c] + init, d);
      assert init + [d] == w;
    }
  }

  /** Splitting `f 1//3` leaves an empty piece between the two slashes. */
  lemma SplitExample()
    ensures Split("f 1//3") == ["f", "1", "", "3"]
  {
    SplitWord("f");
    assert "f 1" == "f" + [' '] + "1";
    SplitAfterSeparator("f", ' ', "1");
    assert "f 1/" == "f 1" + ['/'] + "";
    SplitAfterSeparator("f 1", '/', "");
    assert "f 1//3" == "f 1/" + ['/'] + "3";
    SplitAfterSeparator("f 1/", '/', "3");
  }

  /** A doubled separator, as in `1//3`, yields no empty token. */
  lemma TokenizeSkipsEmpty()
    ensures Tokenize("f 1//3") == ["f", "1", "3"]
  {
    SplitExample();
    var pieces := ["f", "1", "", "3"];
    assert pieces[1..] == ["1", "", "3"];
    assert pieces[1..][1..] == ["", "3"];
    assert pieces[1..][1..][1..] == ["3"];
    assert pieces[1..][1..][1..][1..] == [];
  }

  // ---------------------------------------------------------------------------
  // `str::parse::<usize>`
  // ---------------------------------------------------------------------------

  predicate IsDigit(c: char) {
    '0' <= c <= '9'
  }

  predicate AllDigits(s: string) {
    forall i | 0 <= i < |s| :: IsDigit(s[i])
  }

  /** The value of a decimal numeral, most significant digit first. */
  function DigitsValue(s: string): nat
    requires AllDigits(s)
    decreases |s|
  {
    if s == [] then 0
    else DigitsValue(s[..|s| - 1]) * 10 + (s[|s| - 1] as int - '0' as int)
  }

  /** The numeral after at most one leading '+'. */
  function Unsigned(s: string): string {
    if s != [] && s[0] == '+' then s[1..] else s
  }

  /**
   * `usize::from_str` on a 64-bit target: an optional '+', then at least one
   * decimal digit and nothing else, with a value that fits in 64 bits.
   */
  function ParseUsize(s: string): (r: Option<nat>)
    ensures r.Some? <==> Unsigned(s) != [] && AllDigits(Unsigned(s)) && DigitsValue(Unsigned(s)) <= USIZE_MAX
    ensures r.Some? ==> r.value == DigitsValue(Unsigned(s))
    ensures r.Some? ==> r.value <= USIZE_MAX
    ensures r.Some? ==> s != [] && (s[0] == '+' || IsDigit(s[0]))
    ensures s == [] || s == "+" ==> r.None?
  {
    var digits := Unsigned(s);
    if digits == [] || !AllDigits(digits) then None
    else
      var v := DigitsValue(digits);
      if v > USIZE_MAX then None else Some(v)
  }

  /** The decimal numeral of `n`, without leading zeros. */
  function ShowNat(n: nat): (s: string)
    ensures s != [] && AllDigits(s)
    decreases n
  {
    var d := ['0' + (n % 10) as char];
    if n < 10 then d else ShowNat(n / 10) + d
  }

  lemma {:induction false} ShowNatValue(n: nat)
    ensures DigitsValue(ShowNat(n)) == n
    decreases n
  {
    var s := ShowNat(n);
    if n >= 10 {
      ShowNatValue(n / 10);
      assert s[..|s| - 1] == ShowNat(n / 10);
    }
  }

  /** Every index the parser accepts is read back from its decimal numeral, with or without a '+'. */
  lemma ParseShowRoundTrip(n: nat)
    requires n <= USIZE_MAX
    ensures ParseUsize(ShowNat(n)) == Some(n)
    ensures ParseUsize("+" + ShowNat(n)) == Some(n)
  {
    ShowNatValue(n);
    assert ("+" + ShowNat(n))[1..] == ShowNat(n);
  }

  // ---------------------------------------------------------------------------
  // One line
  // ---------------------------------------------------------------------------

  /** The four lists `load_model` grows as it reads. */
  datatype ObjState = ObjState(triangles: seq<TriangleInfo>, vertices: seq<Vec3>, normals: seq<Vec3>, uvs: seq<Vec2>)

  const EmptyState := ObjState([], [], [], [])

  /** `v` and `vn`: three reals from tokens 1..3; a missing or unparsable token panics. */
  function ParseVec3(items: seq<string>, parseReal: string -> Option<real>): (r: Option<Vec3>)
    ensures r.Some? <==> |items| >= 4 && parseReal(items[1]).Some? && parseReal(items[2]).Some? && parseReal(items[3]).Some?
    ensures r.Some? ==> r.value == Vec3(parseReal(items[1]).value, parseReal(items[2]).value, parseReal(items[3]).value)
  {
    if |items| < 4 then None
    else match (parseReal(items[1]), parseReal(items[2]), parseReal(items[3]))
      case (Some(x), Some(y), Some(z)) => Some(Vec3(x, y, z))
      case _ => None
  }

  /** `vt`: two reals from tokens 1..2. */
  function ParseVec2(items: seq<string>, parseReal: string -> Option<real>): (r: Option<Vec2>)
    ensures r.Some? <==> |items| >= 3 && parseReal(items[1]).Some? && parseReal(items[2]).Some?
    ensures r.Some? ==> r.value == Vec2(parseReal(items[1]).value, parseReal(items[2]).value)
  {
    if |items| < 3 then None
    else match (parseReal(items[1]), parseReal(items[2]))
      case (Some(x), Some(y)) => Some(Vec2(x, y))
      case _ => None
  }

  /**
   * `list[token.parse::<usize>().unwrap() - 1]`: a 1-based reference. An
   * unparsable token, index 0 (the subtraction underflows) and an index past
   * the end all panic.
   */
  function Lookup<T>(list: seq<T>, token: string): (r: Option<T>)
    ensures r.Some? <==> ParseUsize(token).Some? && 1 <= ParseUsize(token).value <= |list|
    ensures r.Some? ==> r.value in list && r.value == list[ParseUsize(token).value - 1]
  {
    match ParseUsize(token)
    case None => None
    case Some(n) => if n == 0 || n > |list| then None else Some(list[n - 1])
  }

  /** Vertex k of an `f` line: tokens 3k+1, 3k+2, 3k+3 index positions, texture coordinates and normals. */
  function FaceVertex(items: seq<string>, st: ObjState, k: nat): (r: Option<VertexInfo>)
    requires k <= 2 && |items| >= 10
    ensures r.Some? <==>
      Lookup(st.vertices, items[3 * k + 1]).Some? && Lookup(st.uvs, items[3 * k + 2]).Some?
      && Lookup(st.normals, items[3 * k + 3]).Some?
    ensures r.Some? ==> r.value == VertexInfo(Lookup(st.vertices, items[3 * k + 1]).value,
                                              Lookup(st.uvs, items[3 * k + 2]).value,
                                              Lookup(st.normals, items[3 * k + 3]).value)
    ensures r.Some? ==> r.value.vertex in st.vertices && r.value.uv in st.uvs && r.value.normal in st.normals
  {
    match (Lookup(st.vertices, items[3 * k + 1]), Lookup(st.uvs, items[3 * k + 2]), Lookup(st.normals, items[3 * k + 3]))
    case (Some(p), Some(t), Some(n)) => Some(VertexInfo(p, t, n))
    case _ => None
  }

  /** An `f` line: fewer than ten tokens panics; tokens after the ninth are ignored. */
  function ParseFace(items: seq<string>, st: ObjState): (r: Option<TriangleInfo>)
    ensures |items| < 10 ==> r.None?
    ensures |items| >= 10 ==>
      (r.Some? <==> FaceVertex(items, st, 0).Some? && FaceVertex(items, st, 1).Some? && FaceVertex(items, st, 2).Some?)
    ensures r.Some? ==>
      && |items| >= 10
      && r.value.vertex0 == FaceVertex(items, st, 0).value
      && r.value.vertex1 == FaceVertex(items, st, 1).value
      && r.value.vertex2 == FaceVertex(items, st, 2).value
    ensures r.Some? ==> forall k | 0 <= k <= 2 ::
      && r.value.GetIndex(k).vertex in st.vertices
      && r.value.GetIndex(k).uv in st.uvs
      && r.value.GetIndex(k).normal in st.normals
  {
    if |items| < 10 then None
    else match (FaceVertex(items, st, 0), FaceVertex(items, st, 1), FaceVertex(items, st, 2))
      case (Some(v0), Some(v1), Some(v2)) => Some(TriangleInfo(v0, v1, v2))
      case _ => None
  }

  /** The tag of a line, or the empty string for a line without tokens. */
  function Tag(line: string): string {
    var items := Tokenize(line);
    if items == [] then "" else items[0]
  }

  /**
   * One iteration of the loader's loop. A line without tokens and a line with
   * any other tag leave the lists as they are; each known tag appends to its
   * own list only; `None` is a panic.
   */
  function ParseLine(st: ObjState, line: string, parseReal: string -> Option<real>): (r: Option<ObjState>)
    ensures Tag(line) !in {"v", "vn", "vt", "f"} ==> r == Some(st)
    ensures Tag(line) == "v" ==> (r.Some? <==> ParseVec3(Tokenize(line), parseReal).Some?)
    ensures Tag(line) == "v" && r.Some? ==>
      r.value == st.(vertices := st.vertices + [ParseVec3(Tokenize(line), parseReal).value])
    ensures Tag(line) == "vn" ==> (r.Some? <==> ParseVec3(Tokenize(line), parseReal).Some?)
    ensures Tag(line) == "vn" && r.Some? ==>
      r.value == st.(normals := st.normals + [ParseVec3(Tokenize(line), parseReal).value])
    ensures Tag(line) == "vt" ==> (r.Some? <==> ParseVec2(Tokenize(line), parseReal).Some?)
    ensures Tag(line) == "vt" && r.Some? ==>
      r.value == st.(uvs := st.uvs + [ParseVec2(Tokenize(line), parseReal).value])
    ensures Tag(line) == "f" ==> (r.Some? <==> ParseFace(Tokenize(line), st).Some?)
    ensures Tag(line) == "f" && r.Some? ==>
      r.value == st.(triangles := st.triangles + [ParseFace(Tokenize(line), st).value])
  {
    var items := Tokenize(line);
    if items == [] then Some(st)
    else if items[0] == "v" then
      match ParseVec3(items, parseReal)
      case None => None
      case Some(p) => Some(st.(vertices := st.vertices + [p]))
    else if items[0] == "vn" then
      match ParseVec3(items, parseReal)
      case None => None
      case Some(n) => Some(st.(normals := st.normals + [n]))
    else if items[0] == "vt" then
      match ParseVec2(items, parseReal)
      case None => None
      case Some(t) => Some(st.(uvs := st.uvs + [t]))
    else if items[0] == "f" then
      match ParseFace(items, st)
      case None => None
      case Some(t) => Some(st.(triangles := st.triangles + [t]))
    else Some(st)
  }

  // ---------------------------------------------------------------------------
  // The whole file
  // ---------------------------------------------------------------------------

  /** The lists after reading `lines` in order from empty ones; `None` once a line panics. */
  function Load(lines: seq<string>, parseReal: string -> Option<real>): Option<ObjState>
    decreases |lines|
  {
    if lines == [] then Some(EmptyState)
    else
      match Load(lines[..|lines| - 1], parseReal)
      case None => None
      case Some(st) => ParseLine(st, lines[|lines| - 1], parseReal)
  }

  /** How many lines are `f` lines. */
  function CountFaces(lines: seq<string>): nat
    decreases |lines|
  {
    if lines == [] then 0
    else CountFaces(lines[..|lines| - 1]) + (if Tag(lines[|lines| - 1]) == "f" then 1 else 0)
  }

  /**
   * Triangles come out one per `f` line and in the order of those lines: a
   * longer file only appends, and every list of the shorter file is kept as a prefix.
   */
  lemma {:induction false} LoadGrows(lines: seq<string>, k: nat, parseReal: string -> Option<real>)
    requires k <= |lines| && Load(lines, parseReal).Some?
    ensures Load(lines[..k], parseReal).Some?
    ensures var short, full := Load(lines[..k], parseReal).value, Load(lines, parseReal).value;
      && short.triangles <= full.triangles && short.vertices <= full.vertices
      && short.normals <= full.normals && short.uvs <= full.uvs
    decreases |lines|
  {
    if k < |lines| {
      var init := lines[..|lines| - 1];
      assert init[..k] == lines[..k];
      LoadGrows(init, k, parseReal);
    } else {
      assert lines[..k] == lines;
    }
  }

  /** A file that loads has exactly one triangle per `f` line. */
  lemma {:induction false} LoadCountsFaces(lines: seq<string>, parseReal: string -> Option<real>)
    requires Load(lines, parseReal).Some?
    ensures |Load(lines, parseReal).value.triangles| == CountFaces(lines)
    decreases |lines|
  {
    if lines != [] {
      LoadCountsFaces(lines[..|lines| - 1], parseReal);
    }
  }

  /** A panic on some line is a panic of the whole file. */
  lemma {:induction false} LoadPanicPersists(lines: seq<string>, k: nat, parseReal: string -> Option<real>)
    requires k <= |lines| && Load(lines[..k], parseReal).None?
    ensures Load(lines, parseReal).None?
  {
    if Load(lines, parseReal).Some? {
      LoadGrows(lines, k, parseReal);
    }
  }

  /**
   * `load_model` over the lines of the file: four growing lists, one pass.
   * `None` is a panic; otherwise the triangles, in file order.
   */
  method LoadModel(lines: seq<string>, parseReal: string -> Option<real>) returns (r: Option<seq<TriangleInfo>>)
    ensures r.Some? <==> Load(lines, parseReal).Some?
    ensures r.Some? ==> r.value == Load(lines, parseReal).value.triangles
  {
    var triangles: seq<TriangleInfo> := [];
    var vertices: seq<Vec3> := [];
    var normals: seq<Vec3> := [];
    var uvs: seq<Vec2> := [];
    var k := 0;
    while k < |lines|
      invariant 0 <= k <= |lines|
      invariant Load(lines[..k], parseReal) == Some(ObjState(triangles, vertices, normals, uvs))
    {
      assert lines[..k + 1][..k] == lines[..k];
      assert Load(lines[..k + 1], parseReal) == ParseLine(ObjState(triangles, vertices, normals, uvs), lines[k], parseReal);
      var items := Tokenize(lines[k]);
      if items != [] {
        var tag := items[0];
        if tag == "v" {
          var p := ParseVec3(items, parseReal);
          if p.None? {
            LoadPanicPersists(lines, k + 1, parseReal);
            return None;
          }
          vertices := vertices + [p.value];
        } else if tag == "vn" {
          var n := ParseVec3(items, parseReal);
          if n.None? {
            LoadPanicPersists(lines, k + 1, parseReal);
            return None;
          }
          normals := normals + [n.value];
        } else if tag == "vt" {
          var t := ParseVec2(items, parseReal);
          if t.None? {
            LoadPanicPersists(lines, k + 1, parseReal);
            return None;
          }
          uvs := uvs + [t.value];
        } else if tag == "f" {
          var t := ParseFace(items, ObjState(triangles, vertices, normals, uvs));
          if t.None? {
            LoadPanicPersists(lines, k + 1, parseReal);
            return None;
          }
          triangles := triangles + [t.value];
        }
      }
      k := k + 1;
    }
    assert lines[..k] == lines;
    return Some(triangles);
  }
}
