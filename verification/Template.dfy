/** The named-webhook template renderer. A template's own meaning is its pieces: literal text, and
    placeholders between the leftmost `{{` and the next `}}`. Looking a field up in the payload is
    a parameter. */
module Template {
  import opened Text

  // ---- The meaning of a template ---------------------------------------------------------------

  datatype Piece = Literal(text: string) | Placeholder(expr: string)

  /** Position of the first doubled `c`. */
  function FindPair(s: string, c: char): (k: Option<nat>)
    ensures k.Some? ==> k.value + 1 < |s| && s[k.value] == c && s[k.value + 1] == c
    ensures k.Some? ==> forall i :: 0 <= i < k.value ==> !(s[i] == c && s[i + 1] == c)
    ensures k.None? ==> forall i :: 0 <= i < |s| - 1 ==> !(s[i] == c && s[i + 1] == c)
  {
    if |s| < 2 then None
    else if s[0] == c && s[1] == c then Some(0)
    else match FindPair(s[1..], c)
      case None => None
      case Some(k) => Some(k + 1)
  }

  /** The template has an opening, and a closing behind the first one. */
  predicate Closed(t: string) {
    FindPair(t, '{').Some? && FindPair(t[FindPair(t, '{').value + 2..], '}').Some?
  }

  /** The text before the first placeholder, its expression, and what follows it. */
  datatype Cut = Cut(before: string, expr: string, rest: string)

  function CutFirst(t: string): (c: Cut)
    requires Closed(t)
    ensures t == c.before + ("{{" + (c.expr + ("}}" + c.rest))) && |c.rest| < |t|
  {
    var k := FindPair(t, '{').value;
    var inside := t[k + 2..];
    var e := FindPair(inside, '}').value;
    CutCovers(t, k, e);
    Cut(t[..k], inside[..e], inside[e + 2..])
  }

  lemma CutCovers(t: string, k: nat, e: nat)
    requires k + 1 < |t| && t[k] == '{' && t[k + 1] == '{'
    requires k + 2 + e + 1 < |t| && t[k + 2 + e] == '}' && t[k + 2 + e + 1] == '}'
    ensures t == t[..k] + ("{{" + (t[k + 2..][..e] + ("}}" + t[k + 2..][e + 2..])))
  {
    assert t[k + 2..] == t[k + 2..][..e] + ("}}" + t[k + 2..][e + 2..]);
    assert t == t[..k] + ("{{" + t[k + 2..]);
  }

  /** The cut is at the leftmost opening and at the first closing behind it. */
  lemma CutIsLeftmost(t: string)
    requires Closed(t)
    ensures FindPair(CutFirst(t).before + "{", '{').None? && FindPair(CutFirst(t).expr + "}", '}').None?
  {
    var k := FindPair(t, '{').value;
    var inside := t[k + 2..];
    PairFreeUpTo(t, k, '{');
    PairFreeUpTo(inside, FindPair(inside, '}').value, '}');
  }

  lemma PairFreeUpTo(s: string, k: nat, c: char)
    requires FindPair(s, c) == Some(k)
    ensures FindPair(s[..k] + [c], c).None?
  {
    var cut := s[..k] + [c];
    assert cut == s[..k + 1];
  }

  /** An opening without a closing, and what follows it, is literal text. */
  function Pieces(t: string): seq<Piece>
    decreases |t|
  {
    if t == [] then []
    else if !Closed(t) then [Literal(t)]
    else
      var c := CutFirst(t);
      [Literal(c.before), Placeholder(c.expr)] + Pieces(c.rest)
  }

  function Source(p: Piece): string {
    match p
    case Literal(text) => text
    case Placeholder(expr) => "{{" + (expr + "}}")
  }

  function Sources(ps: seq<Piece>): string {
    if ps == [] then [] else Source(ps[0]) + Sources(ps[1..])
  }

  /** The whole payload, a field of it, or nothing for any other expression. */
  function Expand(expr: string, body: string, field: string -> Result<string>): Result<string> {
    var e := TrimRight(TrimLeft(expr, IsBlank), IsBlank);
    if e == "payload" then Ok(body)
    else if |e| >= 8 && e[..8] == "payload." then field(e[8..])
    else Ok([])
  }

  function Prefixed(s: string, r: Result<string>): Result<string> {
    if r.Ok? then Ok(s + r.value) else r
  }

  /** Literals unchanged and placeholders expanded, in order. */
  function Meaning(ps: seq<Piece>, body: string, field: string -> Result<string>): Result<string> {
    if ps == [] then Ok([])
    else
      match ps[0]
      case Literal(text) => Prefixed(text, Meaning(ps[1..], body, field))
      case Placeholder(expr) =>
        match Expand(expr, body, field)
        case Err(code) => Err(code)
        case Ok(value) => Prefixed(value, Meaning(ps[1..], body, field))
  }

  // ---- What the scan does ----------------------------------------------------------------------

  /** The rest of a template, scanned as the renderer scans it: trailing text without an opening
      loses its last byte. */
  function Scan(t: string, body: string, field: string -> Result<string>): Result<string>
    decreases |t|
  {
    if t == [] then Ok([])
    else if FindPair(t, '{').None? then Ok(t[..|t| - 1])
    else if !Closed(t) then Ok(t)
    else
      var c := CutFirst(t);
      match Expand(c.expr, body, field)
      case Err(code) => Err(code)
      case Ok(value) => Prefixed(c.before + value, Scan(c.rest, body, field))
  }

  function Render(t: string, body: string, field: string -> Result<string>): Result<string> {
    if t == [] then Ok(body) else Scan(t, body, field)
  }

  predicate TextEnd(ps: seq<Piece>) {
    ps != [] && ps[|ps| - 1].Literal? && ps[|ps| - 1].text != [] && FindPair(ps[|ps| - 1].text, '{').None?
  }

  /** The template ends in text without an opening. */
  predicate EndsInText(t: string) {
    TextEnd(Pieces(t))
  }

  // ---- Comparing the two -----------------------------------------------------------------------

  lemma SourcesConcat(p: Piece, q: Piece, ps: seq<Piece>)
    ensures Sources([p, q] + ps) == Source(p) + (Source(q) + Sources(ps))
  {
    hide Source;
    assert ([p, q] + ps)[1..] == [q] + ps && ([q] + ps)[1..] == ps;
  }

  lemma SourcesOne(p: Piece)
    ensures Sources([p]) == Source(p)
  {
    assert [p][1..] == [] && Source(p) + [] == Source(p);
  }

  /** No byte of a template is outside its pieces. */
  lemma {:induction false} PiecesCover(t: string)
    ensures Sources(Pieces(t)) == t
    decreases |t|
  {
    hide Closed, CutFirst, Sources;
    if t == [] {
      NoPieces();
    } else if Closed(t) {
      var c := CutFirst(t);
      PiecesCover(c.rest);
      SourcesConcat(Literal(c.before), Placeholder(c.expr), Pieces(c.rest));
      assert ("{{" + (c.expr + "}}")) + c.rest == "{{" + (c.expr + ("}}" + c.rest));
    } else {
      SourcesOne(Literal(t));
    }
  }

  lemma NoPieces()
    ensures Pieces([]) == [] && Sources([]) == []
  {
  }

  lemma TextEndConcat(p: Piece, expr: string, ps: seq<Piece>)
    ensures TextEnd([p, Placeholder(expr)] + ps) <==> TextEnd(ps)
  {
    hide FindPair;
    var all := [p, Placeholder(expr)] + ps;
    assert all[|all| - 1] == if ps == [] then Placeholder(expr) else ps[|ps| - 1];
  }

  lemma MeaningStep(text: string, expr: string, ps: seq<Piece>, body: string, field: string -> Result<string>)
    ensures Meaning([Literal(text), Placeholder(expr)] + ps, body, field) ==
            if Expand(expr, body, field).Err? then Err(Expand(expr, body, field).code)
            else Prefixed(text + Expand(expr, body, field).value, Meaning(ps, body, field))
  {
    hide Expand;
    var all := [Literal(text), Placeholder(expr)] + ps;
    assert all[1..] == [Placeholder(expr)] + ps && all[1..][1..] == ps;
    var tail := Meaning(ps, body, field);
    if Expand(expr, body, field).Ok? && tail.Ok? {
      var value := Expand(expr, body, field).value;
      assert text + (value + tail.value) == (text + value) + tail.value;
    }
  }

  lemma MeaningOfLiteral(t: string, body: string, field: string -> Result<string>)
    ensures Meaning([Literal(t)], body, field) == Ok(t)
  {
    assert [Literal(t)][1..] == [] && t + [] == t;
  }

  /** What a scan `r` of pieces ending in text, or not, has to do with their meaning `m`. */
  predicate Agrees(r: Result<string>, m: Result<string>, textEnd: bool) {
    && (textEnd && m.Ok? ==> m.value != [])
    && r == if textEnd && m.Ok? then Ok(m.value[..|m.value| - 1]) else m
  }

  lemma AgreesPrefixed(s: string, r: Result<string>, m: Result<string>, textEnd: bool)
    requires Agrees(r, m, textEnd)
    ensures Agrees(Prefixed(s, r), Prefixed(s, m), textEnd)
  {
    if textEnd && m.Ok? {
      assert s + m.value[..|m.value| - 1] == (s + m.value)[..|s + m.value| - 1];
    }
  }

  /** The scan gives the template's meaning, short of its last byte when it ends in plain text. */
  lemma {:induction false} ScanMeaning(t: string, body: string, field: string -> Result<string>)
    ensures Agrees(Scan(t, body, field), Meaning(Pieces(t), body, field), EndsInText(t))
    decreases |t|
  {
    hide FindPair, Closed, CutFirst, Meaning, Expand, TextEnd, Agrees;
    if t == [] {
      ScanEmpty(body, field);
    } else if Closed(t) {
      ClosedHasOpening(t);
      var c := CutFirst(t);
      MeaningStep(c.before, c.expr, Pieces(c.rest), body, field);
      TextEndConcat(Literal(c.before), c.expr, Pieces(c.rest));
      ScanMeaning(c.rest, body, field);
      var value := Expand(c.expr, body, field);
      if value.Ok? {
        AgreesPrefixed(c.before + value.value, Scan(c.rest, body, field), Meaning(Pieces(c.rest), body, field),
                       EndsInText(c.rest));
      } else {
        AgreesOnError(value.code, EndsInText(t));
      }
    } else {
      MeaningOfLiteral(t, body, field);
      AgreesOnText(t);
    }
  }

  lemma ClosedHasOpening(t: string)
    requires Closed(t)
    ensures FindPair(t, '{').Some?
  {
  }

  lemma ScanEmpty(body: string, field: string -> Result<string>)
    ensures Agrees(Scan([], body, field), Meaning(Pieces([]), body, field), EndsInText([]))
  {
  }

  lemma AgreesOnError(code: string, textEnd: bool)
    ensures Agrees(Err(code), Err(code), textEnd)
  {
  }

  lemma AgreesOnText(t: string)
    requires t != []
    ensures Agrees(Ok(if FindPair(t, '{').None? then t[..|t| - 1] else t), Ok(t), TextEnd([Literal(t)]))
  {
    hide FindPair;
  }

  /** A non-empty template renders to its meaning for every payload and field lookup exactly when it
      does not end in text without an opening. It does when it ends in a closed placeholder. */
  lemma RenderKeepsMeaning(t: string)
    requires t != []
    ensures (forall body, field :: Render(t, body, field) == Meaning(Pieces(t), body, field))
            <==> !EndsInText(t)
    ensures Pieces(t) != [] && Pieces(t)[|Pieces(t)| - 1].Placeholder? ==>
              forall body, field :: Render(t, body, field) == Meaning(Pieces(t), body, field)
  {
    assert Pieces(t) != [] && Pieces(t)[|Pieces(t)| - 1].Placeholder? ==> !EndsInText(t);
    hide Pieces, Meaning, Scan, EndsInText;
    forall body, field
      ensures !EndsInText(t) ==> Render(t, body, field) == Meaning(Pieces(t), body, field)
    {
      ScanMeaning(t, body, field);
    }
    if EndsInText(t) {
      var field := (s: string) => Ok("");
      ScanMeaning(t, "", field);
      AlwaysMeans(Pieces(t), "", field);
      assert Render(t, "", field) != Meaning(Pieces(t), "", field);
    }
  }

  lemma {:induction false} AlwaysMeans(ps: seq<Piece>, body: string, field: string -> Result<string>)
    requires forall s :: field(s).Ok?
    ensures Meaning(ps, body, field).Ok?
  {
    if ps != [] {
      AlwaysMeans(ps[1..], body, field);
    }
  }

  /** Plain text loses its last byte. */
  lemma PlainTextIsCut(body: string, field: string -> Result<string>)
    ensures Render("ab", body, field) == Ok("a") && Meaning(Pieces("ab"), body, field) == Ok("ab")
  {
    assert "ab"[..1] == "a" && FindPair("ab", '{').None?;
    MeaningOfLiteral("ab", body, field);
  }

  // ---- The renderer in place -------------------------------------------------------------------

  lemma FindPairFrom(t: string, pos: nat, at: nat, c: char)
    requires pos <= at <= |t|
    requires forall i :: pos <= i < at && i + 1 < |t| ==> !(t[i] == c && t[i + 1] == c)
    ensures at + 1 < |t| && t[at] == c && t[at + 1] == c ==> FindPair(t[pos..], c) == Some(at - pos)
    ensures at + 1 >= |t| ==> FindPair(t[pos..], c).None?
  {
    var s := t[pos..];
    assert forall i :: 0 <= i < |s| ==> s[i] == t[pos + i];
  }

  method FindFrom(t: string, pos: nat, c: char) returns (at: nat)
    requires pos <= |t|
    ensures pos <= at <= |t|
    ensures at + 1 < |t| ==> t[at] == c && t[at + 1] == c && FindPair(t[pos..], c) == Some(at - pos)
    ensures at + 1 >= |t| ==> FindPair(t[pos..], c).None?
    ensures pos < |t| ==> at < |t|
  {
    hide FindPair;
    at := pos;
    while at + 1 < |t| && !(t[at] == c && t[at + 1] == c)
      invariant pos <= at <= |t| && (pos < |t| ==> at < |t|)
      invariant forall i :: pos <= i < at && i + 1 < |t| ==> !(t[i] == c && t[i + 1] == c)
    {
      at := at + 1;
    }
    FindPairFrom(t, pos, at, c);
  }

  method RenderTemplate(t: string, body: string, field: string -> Result<string>) returns (r: Result<string>)
    ensures r == Render(t, body, field)
  {
    hide FindPair, Expand, Scan;
    if t == [] {
      return Ok(body);
    }
    var builder: string := [];
    var pos := 0;
    assert t[0..] == t;
    PrefixedNothing(Scan(t, body, field));
    while pos < |t|
      invariant pos <= |t|
      invariant Scan(t, body, field) == Prefixed(builder, Scan(t[pos..], body, field))
      decreases |t| - pos
    {
      var start := FindFrom(t, pos, '{');
      ghost var before := builder;
      builder := builder + t[pos..start];
      if start + 1 >= |t| {
        ScanText(t, pos, start, before, body, field);
        return Ok(builder);
      }
      var exprStart := start + 2;
      var end := FindFrom(t, exprStart, '}');
      if end + 1 >= |t| {
        ScanUnclosed(t, pos, start, before, body, field);
        builder := builder + t[start..];
        return Ok(builder);
      }
      var value := Expand(t[exprStart..end], body, field);
      ScanClosed(t, pos, start, end, before, body, field);
      if value.Err? {
        return Err(value.code);
      }
      builder := builder + value.value;
      pos := end + 2;
    }
    ScanNothing(builder, body, field);
    assert t[pos..] == [];
    return Ok(builder);
  }

  lemma PrefixedNothing(r: Result<string>)
    ensures Prefixed([], r) == r
  {
    assert r.Ok? ==> [] + r.value == r.value;
  }

  lemma ScanNothing(builder: string, body: string, field: string -> Result<string>)
    ensures Prefixed(builder, Scan([], body, field)) == Ok(builder)
  {
    assert builder + [] == builder;
  }

  lemma ScanText(t: string, pos: nat, start: nat, before: string, body: string, field: string -> Result<string>)
    requires pos < |t| && start == |t| - 1 && pos <= start && FindPair(t[pos..], '{').None?
    ensures Prefixed(before, Scan(t[pos..], body, field)) == Ok(before + t[pos..start])
  {
    hide FindPair, Closed, CutFirst;
    assert t[pos..][..|t| - pos - 1] == t[pos..start];
  }

  lemma ScanUnclosed(t: string, pos: nat, start: nat, before: string, body: string, field: string -> Result<string>)
    requires pos <= start && start + 1 < |t| && FindPair(t[pos..], '{') == Some(start - pos)
    requires FindPair(t[start + 2..], '}').None?
    ensures Prefixed(before, Scan(t[pos..], body, field)) == Ok((before + t[pos..start]) + t[start..])
  {
    hide FindPair, CutFirst;
    assert t[pos..][start - pos + 2..] == t[start + 2..];
    assert (before + t[pos..start]) + t[start..] == before + t[pos..];
  }

  lemma CutFrom(t: string, pos: nat, start: nat, end: nat)
    requires pos <= start && start + 2 <= end && end + 1 < |t|
    requires FindPair(t[pos..], '{') == Some(start - pos)
    requires FindPair(t[start + 2..], '}') == Some(end - (start + 2))
    ensures Closed(t[pos..]) && CutFirst(t[pos..]) == Cut(t[pos..start], t[start + 2..end], t[end + 2..])
  {
    hide FindPair;
    var inside := t[pos..][start - pos + 2..];
    assert inside == t[start + 2..];
    assert inside[..end - (start + 2)] == t[start + 2..end] && inside[end - (start + 2) + 2..] == t[end + 2..];
    assert t[pos..][..start - pos] == t[pos..start];
  }

  lemma ScanClosed(
    t: string, pos: nat, start: nat, end: nat, before: string, body: string, field: string -> Result<string>)
    requires pos <= start && start + 2 <= end && end + 1 < |t|
    requires FindPair(t[pos..], '{') == Some(start - pos)
    requires FindPair(t[start + 2..], '}') == Some(end - (start + 2))
    ensures var value := Expand(t[start + 2..end], body, field);
            Prefixed(before, Scan(t[pos..], body, field)) ==
            if value.Err? then Err(value.code)
            else Prefixed((before + t[pos..start]) + value.value, Scan(t[end + 2..], body, field))
  {
    hide Expand, FindPair, Closed, CutFirst;
    CutFrom(t, pos, start, end);
    var value := Expand(t[start + 2..end], body, field);
    var tail := Scan(t[end + 2..], body, field);
    if value.Ok? && tail.Ok? {
      var text := t[pos..start];
      assert before + ((text + value.value) + tail.value) == ((before + text) + value.value) + tail.value;
    }
  }

  // ---- Placeholders ----------------------------------------------------------------------------

  predicate AllBlank(s: string) {
    forall i :: 0 <= i < |s| ==> IsBlank(s[i])
  }

  predicate Unpadded(s: string) {
    s != [] ==> !IsBlank(s[0]) && !IsBlank(s[|s| - 1])
  }

  lemma {:induction false} RightIsTrimmed(name: string, right: string)
    requires AllBlank(right) && Unpadded(name)
    ensures TrimRight(name + right, IsBlank) == name
    decreases |right|
  {
    if right == [] {
      assert name + right == name;
    } else {
      assert (name + right)[..|name + right| - 1] == name + right[..|right| - 1];
      RightIsTrimmed(name, right[..|right| - 1]);
    }
  }

  lemma {:induction false} BlankIsTrimmed(s: string)
    requires AllBlank(s)
    ensures TrimLeft(s, IsBlank) == []
  {
    if s != [] {
      BlankIsTrimmed(s[1..]);
    }
  }

  lemma PaddedIsTrimmed(left: string, name: string, right: string)
    requires AllBlank(left) && AllBlank(right) && Unpadded(name)
    ensures TrimRight(TrimLeft(left + (name + right), IsBlank), IsBlank) == name
  {
    if name == [] {
      assert left + (name + right) == left + right && AllBlank(left + right);
      BlankIsTrimmed(left + right);
    } else {
      FirstStays(left, name, right);
      RightIsTrimmed(name, right);
    }
  }

  lemma {:induction false} FirstStays(left: string, name: string, right: string)
    requires AllBlank(left) && name != [] && !IsBlank(name[0])
    ensures TrimLeft(left + (name + right), IsBlank) == name + right
  {
    if left == [] {
      assert left + (name + right) == name + right;
    } else {
      assert (left + (name + right))[1..] == left[1..] + (name + right);
      FirstStays(left[1..], name, right);
    }
  }

  /** What a placeholder stands for, with any blanks around its name: the payload, a field of it, or
      nothing. */
  lemma PlaceholderMeans(
    left: string, name: string, right: string, body: string, field: string -> Result<string>)
    requires AllBlank(left) && AllBlank(right) && Unpadded(name)
    ensures var m := Meaning([Placeholder(left + (name + right))], body, field);
            && (name == "payload" ==> m == Ok(body))
            && (forall f :: name == "payload." + f ==> m == field(f))
            && (name != "payload" && (forall f :: name != "payload." + f) ==> m == Ok([]))
  {
    hide TrimLeft, TrimRight, Meaning;
    PaddedIsTrimmed(left, name, right);
    MeaningOfOne(left + (name + right), body, field);
    if |name| >= 8 && name[..8] == "payload." {
      assert name == "payload." + name[8..];
    }
    forall f | name == "payload." + f
      ensures |name| >= 8 && name[..8] == "payload." && name[8..] == f && name != "payload"
    {
      assert |name| != |"payload"|;
    }
  }

  lemma MeaningOfOne(expr: string, body: string, field: string -> Result<string>)
    ensures Meaning([Placeholder(expr)], body, field) == Expand(expr, body, field)
  {
    hide Expand;
    var value := Expand(expr, body, field);
    assert [Placeholder(expr)][1..] == [];
    assert value.Ok? ==> value.value + [] == value.value;
  }

  /** An empty template stands for the whole payload. */
  lemma EmptyTemplate(body: string, field: string -> Result<string>)
    ensures Render([], body, field) == Ok(body)
  {
  }
}
