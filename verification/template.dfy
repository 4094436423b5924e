/**
  The template renderer: Python's `template.format(**context)` restricted to
  flat `{key}` replacement fields and the `{{` / `}}` escapes. The template is
  read left to right, as Python's formatter does, so the first problem met
  decides the error: a missing key that comes before a stray brace is
  reported as the missing key.
 */
module Template {
  import opened Common
  import opened Text

  /** Why a field or brace could not be rendered (all reported with one generic prefix). */
  datatype Fault =
    | LoneClosingBrace        // a `}` that is not part of `}}`
    | LoneOpeningBrace        // a `{` as the last character
    | UnclosedField           // a `{` with no `}` after it, the scan still in the field name
    | UnmatchedFormatSpec     // no `}` after it, the scan inside a format spec
    | ConversionMissing       // no `}` after it, the template ending right after `!`
    | ConversionNotEnded      // no `}` after it, a conversion followed by neither `}` nor `:`
    | BraceInFieldName        // a `{` inside a field name, before anything ends it
    | UnsupportedField(field: string)  // positional, attribute, index, conversion or format-spec fields

  datatype RenderError =
    | MissingPlaceholder(key: string)
    | FormatFailure(fault: Fault)

  /** A character that may appear in a flat key. */
  predicate IsKeyChar(c: char)
  {
    c != '{' && c != '}' && c != '!' && c != ':' && c != '.' && c != '['
  }

  predicate AllDigits(s: string)
  {
    forall i :: 0 <= i < |s| ==> '0' <= s[i] <= '9'
  }

  /**
    A field name looked up by keyword: non-empty, without attribute, index,
    conversion or format-spec syntax, and not made of ASCII digits only (those
    are positional indexes).
   */
  predicate IsFlatKey(k: string)
  {
    |k| > 0 && (forall i :: 0 <= i < |k| ==> IsKeyChar(k[i])) && !AllDigits(k)
  }

  /** The first position at or after `from` holding `c`, if any. */
  function IndexFrom(t: string, c: char, from: nat): (r: Option<nat>)
    requires from <= |t|
    ensures r.Some? ==> from <= r.value < |t| && t[r.value] == c
    ensures r.Some? ==> forall k :: from <= k < r.value ==> t[k] != c
    ensures r.None? ==> forall k :: from <= k < |t| ==> t[k] != c
    decreases |t| - from
  {
    if from == |t| then None
    else if t[from] == c then Some(from)
    else IndexFrom(t, c, from + 1)
  }

  /** A character that ends a field name in Python's scan: a closing brace, the start of a conversion, format spec or index, or a stray `{`. */
  predicate EndsFieldName(c: char)
  {
    c == '{' || c == '}' || c == ':' || c == '!' || c == '['
  }

  /** The first position at or after `from` whose character ends a field name, if any. */
  function FieldNameEnd(t: string, from: nat): (r: Option<nat>)
    requires from <= |t|
    ensures r.Some? ==> from <= r.value < |t| && EndsFieldName(t[r.value])
    ensures r.Some? ==> forall k :: from <= k < r.value ==> !EndsFieldName(t[k])
    ensures r.None? ==> forall k :: from <= k < |t| ==> !EndsFieldName(t[k])
    decreases |t| - from
  {
    if from == |t| then None
    else if EndsFieldName(t[from]) then Some(from)
    else FieldNameEnd(t, from + 1)
  }

  /**
    The fault for a field that no `}` closes, by where Python's scan of the
    field runs out: in the field name, in a format spec after `:`, right after
    a `!`, or after a conversion character that is followed by something other
    than `:`.
   */
  function UnclosedFault(t: string): (f: Fault)
    requires |t| >= 1 && forall k :: 1 <= k < |t| ==> t[k] != '}'
    ensures (forall k :: 1 <= k < |t| ==> !EndsFieldName(t[k])) ==> f == UnclosedField
    ensures forall p :: FirstEnd(t, p) && t[p] == ':' ==> f == UnmatchedFormatSpec
    ensures forall p :: FirstEnd(t, p) && t[p] == '!' ==>
      f == (if p + 1 == |t| then ConversionMissing
            else if p + 2 < |t| && t[p + 2] != ':' then ConversionNotEnded
            else UnmatchedFormatSpec)
    ensures forall p :: FirstEnd(t, p) && (t[p] == '{' || t[p] == '[') ==> f == UnclosedField
  {
    match FieldNameEnd(t, 1)
    case None => UnclosedField
    case Some(p) =>
      if t[p] == ':' then UnmatchedFormatSpec
      else if t[p] == '!' then
        if p + 1 == |t| then ConversionMissing
        else if p + 2 < |t| && t[p + 2] != ':' then ConversionNotEnded
        else UnmatchedFormatSpec
      else UnclosedField
  }

  /** Position `p` holds the first character after the opening `{` that ends the field name. */
  predicate FirstEnd(t: string, p: int)
  {
    1 <= p < |t| && EndsFieldName(t[p]) && forall k :: 1 <= k < p ==> !EndsFieldName(t[k])
  }

  function Prepend(s: string, r: Result<string, RenderError>): Result<string, RenderError>
  {
    if r.Ok? then Ok(s + r.value) else r
  }

  /**
    Render `t` against `ctx`. A failure naming a missing key always names a
    flat key that really is absent from the context.
   */
  function Render(t: string, ctx: map<string, string>): (r: Result<string, RenderError>)
    ensures r.Err? && r.error.MissingPlaceholder? ==>
              r.error.key !in ctx && IsFlatKey(r.error.key)
    decreases |t|
  {
    if |t| == 0 then Ok("")
    else if t[0] == '}' then
      if |t| >= 2 && t[1] == '}' then Prepend("}", Render(t[2..], ctx))
      else Err(FormatFailure(LoneClosingBrace))
    else if t[0] == '{' then
      if |t| == 1 then Err(FormatFailure(LoneOpeningBrace))
      else if t[1] == '{' then Prepend("{", Render(t[2..], ctx))
      else if FieldNameEnd(t, 1).Some? && t[FieldNameEnd(t, 1).value] == '{' then
        Err(FormatFailure(BraceInFieldName))
      else
        match IndexFrom(t, '}', 1)
        case None => Err(FormatFailure(UnclosedFault(t)))
        case Some(j) =>
          var field := t[1..j];
          if !IsFlatKey(field) then Err(FormatFailure(UnsupportedField(field)))
          else if field !in ctx then Err(MissingPlaceholder(field))
          else Prepend(ctx[field], Render(t[j + 1..], ctx))
    else Prepend([t[0]], Render(t[1..], ctx))
  }

  /** The text `render_email_template` reports for a failure; a missing key is shown as Python prints its `KeyError`. */
  function ErrorText(e: RenderError): (msg: string)
    ensures |msg| > 0
  {
    match e
    case MissingPlaceholder(k) => "Template error: missing placeholder {" + ShownKey(k) + "} in data."
    case FormatFailure(f) => "Template rendering error: " + FaultText(f)
  }

  function FaultText(f: Fault): string
  {
    match f
    case LoneClosingBrace => "Single '}' encountered in format string"
    case LoneOpeningBrace => "Single '{' encountered in format string"
    case UnclosedField => "expected '}' before end of string"
    case UnmatchedFormatSpec => "unmatched '{' in format spec"
    case ConversionMissing => "end of string while looking for conversion specifier"
    case ConversionNotEnded => "expected ':' after conversion specifier"
    case BraceInFieldName => "unexpected '{' in field name"
    case UnsupportedField(field) => "unsupported replacement field {" + field + "}"
  }

  /**
    `render_email_template`: the pair (rendered, "") on success and
    ("", error text) on failure, so an empty error text means success.
   */
  function RenderPair(t: string, ctx: map<string, string>): (p: (string, string))
    ensures p.1 == "" <==> Render(t, ctx).Ok?
    ensures p.1 == "" ==> p.0 == Render(t, ctx).value
    ensures p.1 != "" ==> p.0 == ""
    ensures Render(t, ctx).Err? && Render(t, ctx).error.MissingPlaceholder? ==>
              p.1 == "Template error: missing placeholder {" + ShownKey(Render(t, ctx).error.key) + "} in data."
    ensures Render(t, ctx).Err? && Render(t, ctx).error.FormatFailure? ==>
              p.1 == "Template rendering error: " + FaultText(Render(t, ctx).error.fault)
  {
    match Render(t, ctx)
    case Ok(s) => (s, "")
    case Err(e) => ("", ErrorText(e))
  }

  // ---------------------------------------------------------------------------
  // How a missing key is shown: `str(KeyError(k))` is `repr(k)`, and the
  // program strips every `'` from both ends of it.
  // ---------------------------------------------------------------------------

  /** Python's `str.isprintable` for one character; exact up to U+00FF, and every character above it counts as printable. */
  predicate Printable(c: char)
  {
    (' ' <= c < '\U{7F}') || ('\U{A1}' <= c <= '\U{FF}' && c != '\U{AD}') || c > '\U{FF}'
  }

  const HexDigits: string := "0123456789abcdef"

  /** How `repr` writes one character inside quotes `q`. */
  function EscapeChar(c: char, q: char): (e: string)
    requires Printable(q)
    ensures |e| > 0 && forall i :: 0 <= i < |e| ==> Printable(e[i])
    ensures Printable(c) && c != q && c != '\\' ==> e == [c]
    ensures c == q || c == '\\' ==> e == ['\\', c]
    ensures !Printable(c) ==> e[0] == '\\' && 2 <= |e| <= 4
  {
    if c == q || c == '\\' then ['\\', c]
    else if c == '\t' then "\\t"
    else if c == '\n' then "\\n"
    else if c == '\r' then "\\r"
    else if !Printable(c) then
      var n := c as int;
      assert n <= 0xFF;
      ['\\', 'x', HexDigits[n / 16], HexDigits[n % 16]]
    else [c]
  }

  /** How `repr` writes the characters of `s` inside quotes `q`. */
  function Escape(s: string, q: char): (e: string)
    requires Printable(q)
    ensures forall i :: 0 <= i < |e| ==> Printable(e[i])
    ensures |e| >= |s|
    decreases |s|
  {
    if |s| == 0 then "" else EscapeChar(s[0], q) + Escape(s[1..], q)
  }

  /** The quote `repr` chooses: a double quote when `s` holds a single quote and no double quote. */
  function ReprQuote(s: string): (q: char)
    ensures q == '"' || q == '\''
    ensures q == '"' <==> '\'' in s && '"' !in s
  {
    if '\'' in s && '"' !in s then '"' else '\''
  }

  /** Python's `repr` of a string. */
  function Repr(s: string): (r: string)
    ensures |r| >= |s| + 2
    ensures r[0] == ReprQuote(s) && r[|r| - 1] == ReprQuote(s)
    ensures forall i :: 0 <= i < |r| ==> Printable(r[i])
  {
    var q := ReprQuote(s);
    [q] + Escape(s, q) + [q]
  }

  /** The key as `render_email_template` shows it: `str(KeyError(k)).strip("'")`. */
  function ShownKey(k: string): (r: string)
    ensures |r| <= |Repr(k)|
    ensures forall i :: 0 <= i < |r| ==> Printable(r[i])
  {
    var r := StripChar(Repr(k), '\'');
    assert r == Repr(k)[|Repr(k)| - |TrimCharStart(Repr(k), '\'')|..][..|r|];
    r
  }

  /** Escaping works character by character. */
  lemma {:induction false} EscapeConcat(a: string, b: string, q: char)
    requires Printable(q)
    ensures Escape(a + b, q) == Escape(a, q) + Escape(b, q)
    decreases |a|
  {
    if |a| > 0 {
      assert (a + b)[0] == a[0] && (a + b)[1..] == a[1..] + b;
      EscapeConcat(a[1..], b, q);
    } else {
      assert a + b == b;
    }
  }

  /** A string of printable characters other than the quote and the backslash is written as it is. */
  lemma {:induction false} EscapePlain(s: string, q: char)
    requires Printable(q)
    requires forall i :: 0 <= i < |s| ==> Printable(s[i]) && s[i] != q && s[i] != '\\'
    ensures Escape(s, q) == s
    decreases |s|
  {
    if |s| > 0 {
      EscapePlain(s[1..], q);
      assert [s[0]] + s[1..] == s;
    }
  }

  /** A key of printable characters with no quote and no backslash is shown exactly as written. */
  lemma ShownPlainKey(k: string)
    requires forall i :: 0 <= i < |k| ==> Printable(k[i]) && k[i] != '\'' && k[i] != '\\'
    ensures ShownKey(k) == k
  {
    assert ReprQuote(k) == '\'';
    EscapePlain(k, '\'');
    StripCharWrapped(k, '\'');
  }

  // ---------------------------------------------------------------------------
  // A template as a list of pieces, and what filling it in means.
  // ---------------------------------------------------------------------------

  /** One piece of a parsed template: a literal character or a `{key}` hole. */
  datatype Piece = Literal(c: char) | Hole(key: string)

  predicate FlatPieces(ps: seq<Piece>)
  {
    forall i :: 0 <= i < |ps| && ps[i].Hole? ==> IsFlatKey(ps[i].key)
  }

  predicate HolesIn(ps: seq<Piece>, ctx: map<string, string>)
  {
    forall i :: 0 <= i < |ps| && ps[i].Hole? ==> ps[i].key in ctx
  }

  /** The template text of one piece: braces are doubled, holes are braced. */
  function PrintPiece(p: Piece): string
  {
    match p
    case Literal(c) => if c == '{' then "{{" else if c == '}' then "}}" else [c]
    case Hole(k) => "{" + k + "}"
  }

  /** The template text that stands for a list of pieces. */
  function Print(ps: seq<Piece>): string
  {
    if |ps| == 0 then "" else PrintPiece(ps[0]) + Print(ps[1..])
  }

  /** The message a list of pieces stands for: literals kept, holes replaced by their values. */
  function Fill(ps: seq<Piece>, ctx: map<string, string>): string
    requires HolesIn(ps, ctx)
  {
    if |ps| == 0 then "" else FillPiece(ps[0], ctx) + Fill(ps[1..], ctx)
  }

  function FillPiece(p: Piece, ctx: map<string, string>): string
    requires p.Hole? ==> p.key in ctx
  {
    match p
    case Literal(c) => [c]
    case Hole(k) => ctx[k]
  }

  lemma CloseAfterKey(k: string, rest: string)
    requires IsFlatKey(k)
    ensures IndexFrom("{" + k + "}" + rest, '}', 1) == Some(|k| + 1)
    ensures FieldNameEnd("{" + k + "}" + rest, 1) == Some(|k| + 1)
  {
    var t := "{" + k + "}" + rest;
    assert t[|k| + 1] == '}';
    forall i | 1 <= i < |k| + 1 ensures t[i] != '}' && !EndsFieldName(t[i]) {
      assert t[i] == k[i - 1];
    }
  }

  /** Rendering one printed piece and then the rest of the template. */
  lemma RenderPieceStep(p: Piece, rest: string, ctx: map<string, string>)
    requires p.Hole? ==> IsFlatKey(p.key) && p.key in ctx
    ensures Render(PrintPiece(p) + rest, ctx) == Prepend(FillPiece(p, ctx), Render(rest, ctx))
  {
    match p
    case Literal(c) => RenderLiteralStep(c, rest, ctx);
    case Hole(k) => RenderHoleStep(k, rest, ctx);
  }

  lemma RenderLiteralStep(c: char, rest: string, ctx: map<string, string>)
    ensures Render(PrintPiece(Literal(c)) + rest, ctx) == Prepend([c], Render(rest, ctx))
  {
    var t := PrintPiece(Literal(c)) + rest;
    if c == '{' || c == '}' {
      assert t[2..] == rest;
    } else {
      assert t[1..] == rest;
    }
  }

  lemma RenderHoleStep(k: string, rest: string, ctx: map<string, string>)
    requires IsFlatKey(k) && k in ctx
    ensures Render("{" + k + "}" + rest, ctx) == Prepend(ctx[k], Render(rest, ctx))
  {
    var t := "{" + k + "}" + rest;
    CloseAfterKey(k, rest);
    assert t[1] == k[0];
    assert t[1..|k| + 1] == k;
    assert t[|k| + 2..] == rest;
  }

  /** Rendering a printed hole whose key is absent. */
  lemma RenderHoleMissing(k: string, rest: string, ctx: map<string, string>)
    requires IsFlatKey(k) && k !in ctx
    ensures Render("{" + k + "}" + rest, ctx) == Err(MissingPlaceholder(k))
  {
    var t := "{" + k + "}" + rest;
    CloseAfterKey(k, rest);
    assert t[1] == k[0];
    assert t[1..|k| + 1] == k;
  }

  lemma FlatTail(ps: seq<Piece>, ctx: map<string, string>)
    requires |ps| > 0 && FlatPieces(ps)
    ensures FlatPieces(ps[1..])
    ensures HolesIn(ps, ctx) ==> HolesIn(ps[1..], ctx)
  {
    assert forall i :: 0 <= i < |ps[1..]| ==> ps[1..][i] == ps[i + 1];
  }

  /**
    Every placeholder present: a template made of flat holes and escaped
    literals renders to the message with each hole replaced by its value.
   */
  lemma {:induction false} RenderPrinted(ps: seq<Piece>, ctx: map<string, string>)
    requires FlatPieces(ps) && HolesIn(ps, ctx)
    ensures Render(Print(ps), ctx) == Ok(Fill(ps, ctx))
    decreases |ps|
  {
    if |ps| > 0 {
      FlatTail(ps, ctx);
      RenderPrinted(ps[1..], ctx);
      RenderPieceStep(ps[0], Print(ps[1..]), ctx);
    }
  }

  /**
    A missing placeholder: when the first hole whose key is absent is at
    position `n`, rendering fails naming exactly that key.
   */
  lemma {:induction false} RenderFirstMissing(ps: seq<Piece>, ctx: map<string, string>, n: nat)
    requires FlatPieces(ps)
    requires n < |ps| && ps[n].Hole? && ps[n].key !in ctx
    requires HolesIn(ps[..n], ctx)
    ensures Render(Print(ps), ctx) == Err(MissingPlaceholder(ps[n].key))
    decreases n
  {
    if n == 0 {
      RenderHoleMissing(ps[0].key, Print(ps[1..]), ctx);
    } else {
      assert ps[..n][0] == ps[0];
      FlatTail(ps, ctx);
      assert HolesIn(ps[1..][..n - 1], ctx) by {
        assert ps[1..][..n - 1] == ps[..n][1..];
        FlatTail(ps[..n], ctx);
      }
      RenderFirstMissing(ps[1..], ctx, n - 1);
      RenderPieceStep(ps[0], Print(ps[1..]), ctx);
    }
  }

  /**
    A missing placeholder wins over whatever text follows it: after flat
    pieces whose keys are all present, a hole with an absent key fails
    naming that key, even when the rest of the template is malformed.
   */
  lemma {:induction false} RenderMissingWhateverFollows(ps: seq<Piece>, k: string, rest: string, ctx: map<string, string>)
    requires FlatPieces(ps) && HolesIn(ps, ctx)
    requires IsFlatKey(k) && k !in ctx
    ensures Render(Print(ps) + ("{" + k + "}" + rest), ctx) == Err(MissingPlaceholder(k))
    decreases |ps|
  {
    var hole := "{" + k + "}" + rest;
    if |ps| == 0 {
      assert Print(ps) + hole == hole;
      RenderHoleMissing(k, rest, ctx);
    } else {
      FlatTail(ps, ctx);
      RenderMissingWhateverFollows(ps[1..], k, rest, ctx);
      assert Print(ps) + hole == PrintPiece(ps[0]) + (Print(ps[1..]) + hole);
      RenderPieceStep(ps[0], Print(ps[1..]) + hole, ctx);
    }
  }

  /** A field that renders is a flat key present in the context, closed by the first `}` after it. */
  lemma FieldPiece(t: string, ctx: map<string, string>) returns (p: Piece, n: nat)
    requires |t| >= 2 && t[0] == '{' && t[1] != '{' && Render(t, ctx).Ok?
    ensures 0 < n <= |t| && t == PrintPiece(p) + t[n..]
    ensures p.Hole? && IsFlatKey(p.key) && p.key in ctx
  {
    var j := IndexFrom(t, '}', 1).value;
    p := Hole(t[1..j]);
    n := j + 1;
    assert t == "{" + t[1..j] + "}" + t[j + 1..];
  }

  /** The first piece of a template that renders, and how many characters it takes. */
  lemma FirstPiece(t: string, ctx: map<string, string>) returns (p: Piece, n: nat)
    requires |t| > 0 && Render(t, ctx).Ok?
    ensures 0 < n <= |t| && t == PrintPiece(p) + t[n..]
    ensures p.Hole? ==> IsFlatKey(p.key) && p.key in ctx
  {
    if t[0] == '}' {
      p, n := Literal('}'), 2;
      assert t == "}}" + t[2..];
    } else if t[0] == '{' {
      if t[1] == '{' {
        p, n := Literal('{'), 2;
        assert t == "{{" + t[2..];
      } else {
        p, n := FieldPiece(t, ctx);
      }
    } else {
      p, n := Literal(t[0]), 1;
      assert t == [t[0]] + t[1..];
    }
  }

  /**
    The converse of `RenderPrinted`: a template that renders is the text of
    some list of flat pieces whose keys are all in the context, and the
    rendered message is that list filled in.
   */
  lemma {:induction false} RenderOkParses(t: string, ctx: map<string, string>) returns (ps: seq<Piece>)
    requires Render(t, ctx).Ok?
    ensures FlatPieces(ps) && HolesIn(ps, ctx)
    ensures Print(ps) == t && Fill(ps, ctx) == Render(t, ctx).value
    decreases |t|
  {
    if |t| == 0 {
      ps := [];
    } else {
      var p, n := FirstPiece(t, ctx);
      var tail := t[n..];
      RenderPieceStep(p, tail, ctx);
      var rest := RenderOkParses(tail, ctx);
      ps := [p] + rest;
      assert ps[0] == p && ps[1..] == rest;
    }
  }

  lemma CompanyIsFlat()
    ensures IsFlatKey("Company")
  {
    assert !('0' <= "Company"[0] <= '9');
  }

  /** A greeting renders with the row's name in place of `{Name}`. */
  lemma RenderExampleGreeting()
    ensures Render("Hi {Name}", map["Name" := "Alice"]) == Ok("Hi Alice")
  {
    var ctx := map["Name" := "Alice"];
    var hi := [Literal('H'), Literal('i'), Literal(' '), Hole("Name")];
    assert hi[1..] == [Literal('i'), Literal(' '), Hole("Name")];
    assert hi[1..][1..] == [Literal(' '), Hole("Name")];
    assert hi[1..][1..][1..] == [Hole("Name")];
    assert Print(hi) == "Hi {Name}";
    assert Fill(hi, ctx) == "Hi Alice";
    assert !AllDigits("Name") by { assert !('0' <= "Name"[0] <= '9'); }
    RenderPrinted(hi, ctx);
  }

  /** The app's default subject ends in `/ {Company}`; a row without a `Company` column fails. */
  lemma RenderExampleMissingCompany()
    ensures Render("/ {Company}", map["Name" := "Alice"]) == Err(MissingPlaceholder("Company"))
  {
    var meet := [Literal('/'), Literal(' '), Hole("Company")];
    assert meet[1..] == [Literal(' '), Hole("Company")];
    assert meet[1..][1..] == [Hole("Company")];
    assert Print(meet) == "/ {Company}";
    CompanyIsFlat();
    RenderFirstMissing(meet, map["Name" := "Alice"], 2);
  }

  /** Errors are met left to right: a missing key before a stray brace wins. */
  lemma RenderExampleMissingBeforeBrace()
    ensures Render("{Company} }", map[]) == Err(MissingPlaceholder("Company"))
  {
    CompanyIsFlat();
    RenderHoleMissing("Company", " }", map[]);
    assert "{Company} }" == "{" + "Company" + "}" + " }";
  }

  /** Errors are met left to right: a stray brace before a missing key wins. */
  lemma RenderExampleBraceBeforeMissing()
    ensures Render("} {Company}", map[]) == Err(FormatFailure(LoneClosingBrace))
  {
    assert "} {Company}"[1] == ' ';
  }

  /** A `{` inside a field name is Python's "unexpected '{' in field name", whether or not a `}` follows. */
  lemma RenderExampleBraceInName()
    ensures Render("Hi {a{", map[]) == Err(FormatFailure(BraceInFieldName))
    ensures Render("{a{b}", map["a" := "x"]) == Err(FormatFailure(BraceInFieldName))
  {
    var t := "{a{";
    assert "Hi {a{"[1..] == "i {a{" && "i {a{"[1..] == " {a{" && " {a{"[1..] == t;
    assert FieldNameEnd(t, 1) == Some(2) by {
      assert !EndsFieldName(t[1]) && EndsFieldName(t[2]);
    }
    var u := "{a{b}";
    assert FieldNameEnd(u, 1) == Some(2) by {
      assert !EndsFieldName(u[1]) && EndsFieldName(u[2]);
    }
  }

  /** A field no `}` closes is reported where Python's scan runs out: the name, the format spec, or the conversion. */
  lemma RenderExampleUnclosed()
    ensures Render("{x", map[]) == Err(FormatFailure(UnclosedField))
    ensures Render("{x:", map[]) == Err(FormatFailure(UnmatchedFormatSpec))
    ensures Render("{x!", map[]) == Err(FormatFailure(ConversionMissing))
    ensures Render("{x!r", map[]) == Err(FormatFailure(UnmatchedFormatSpec))
    ensures Render("{x!rx", map[]) == Err(FormatFailure(ConversionNotEnded))
  {
    assert FieldNameEnd("{x", 1) == None;
    assert FieldNameEnd("{x:", 1) == Some(2);
    assert FieldNameEnd("{x!", 1) == Some(2);
    assert FieldNameEnd("{x!r", 1) == Some(2);
    assert FieldNameEnd("{x!rx", 1) == Some(2);
  }

  /** A key with a single quote but no double quote is shown in double quotes, which the strip leaves in place. */
  lemma ShownDoubleQuoted(k: string)
    requires '\'' in k && forall i :: 0 <= i < |k| ==> Printable(k[i]) && k[i] != '"' && k[i] != '\\'
    ensures ShownKey(k) == "\"" + k + "\""
  {
    assert ReprQuote(k) == '"';
    EscapePlain(k, '"');
    StripCharKeeps("\"" + k + "\"", '\'');
  }

  /** A backslash between two plain parts of a key is shown doubled. */
  lemma ShownBackslash(a: string, b: string)
    requires forall i :: 0 <= i < |a| ==> Printable(a[i]) && a[i] != '\'' && a[i] != '\\'
    requires forall i :: 0 <= i < |b| ==> Printable(b[i]) && b[i] != '\'' && b[i] != '\\'
    requires |b| > 0
    ensures ShownKey(a + "\\" + b) == a + "\\\\" + b
  {
    var k := a + "\\" + b;
    var shown := a + "\\\\" + b;
    assert ReprQuote(k) == '\'' by {
      forall i | 0 <= i < |k| ensures k[i] != '\'' {
        if i < |a| { assert k[i] == a[i]; } else if i > |a| { assert k[i] == b[i - |a| - 1]; }
      }
    }
    assert Escape(k, '\'') == shown by {
      EscapeConcat(a + "\\", b, '\'');
      EscapeConcat(a, "\\", '\'');
      EscapePlain(a, '\'');
      EscapePlain(b, '\'');
      assert Escape("\\", '\'') == "\\\\" by {
        assert "\\"[1..] == "";
      }
    }
    assert shown[0] != '\'' && shown[|shown| - 1] != '\'' by {
      assert shown[|shown| - 1] == b[|b| - 1];
      if |a| > 0 { assert shown[0] == a[0]; }
    }
    StripCharWrapped(shown, '\'');
  }

  /** The key `Company's` is shown as `"Company's"`. */
  lemma ShownKeyExampleQuote(k: string)
    requires k == "Company's"
    ensures ShownKey(k) == "\"" + k + "\""
  {
    assert k[7] == '\'';
    ShownDoubleQuoted(k);
  }

  /** The key `a\b` is shown as `a\\b`. */
  lemma ShownKeyExampleBackslash(a: string, b: string)
    requires a == "a" && b == "b"
    ensures ShownKey(a + "\\" + b) == a + "\\\\" + b
  {
    ShownBackslash(a, b);
  }

  /** A tab in a key is shown as the two characters `\t`. */
  lemma ShownKeyExampleTab(k: string)
    requires k == "\t"
    ensures ShownKey(k) == "\\t"
  {
    assert '\'' !in k;
    assert Escape(k, '\'') == "\\t" by {
      assert k[1..] == "";
    }
    StripCharWrapped("\\t", '\'');
  }

  /** Doubled braces are literal braces, not a placeholder. */
  lemma RenderExampleEscapes()
    ensures Render("{{N}}", map[]) == Ok("{N}")
  {
    var esc := [Literal('{'), Literal('N'), Literal('}')];
    assert esc[1..] == [Literal('N'), Literal('}')];
    assert esc[1..][1..] == [Literal('}')];
    assert Print(esc) == "{{N}}";
    assert Fill(esc, map[]) == "{N}";
    RenderPrinted(esc, map[]);
  }
}
