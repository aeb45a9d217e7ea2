/**
 * A participant of the drawing (a "paisano") and the two validation rules that
 * turn a spreadsheet record into one: the shirt size must be one of seven fixed
 * tokens, and the colour field is split on commas.
 */
module Paisanos {
  import opened Wrappers

  /** The shirt sizes a participant may give; `Unknown` is written "?". */
  datatype ShirtSize = XS | S | M | L | XL | XXL | Unknown

  /** The seven tokens the `tshirt_size` field accepts. */
  const SizeTokens: set<string> := {"XS", "S", "M", "L", "XL", "XXL", "?"}

  /** The token that stands for a size in the input. */
  function SizeToken(size: ShirtSize): (token: string)
    ensures token in SizeTokens
  {
    match size
    case XS => "XS"
    case S => "S"
    case M => "M"
    case L => "L"
    case XL => "XL"
    case XXL => "XXL"
    case Unknown => "?"
  }

  /** Reads a shirt-size token; anything outside the fixed set is rejected. */
  function ParseShirtSize(token: string): (r: Option<ShirtSize>)
    ensures r.Some? <==> token in SizeTokens
  {
    if token == "XS" then Some(XS)
    else if token == "S" then Some(S)
    else if token == "M" then Some(M)
    else if token == "L" then Some(L)
    else if token == "XL" then Some(XL)
    else if token == "XXL" then Some(XXL)
    else if token == "?" then Some(Unknown)
    else None
  }

  /** Parsing a token gives a size exactly when that size is written with that token. */
  lemma ParseShirtSizeInverts(token: string, size: ShirtSize)
    ensures ParseShirtSize(token) == Some(size) <==> token == SizeToken(size)
  {
  }

  /** The separator of the colour field. */
  const Separator: char := ','

  /**
   * Python's `v.split(",")`: the pieces between commas, in order, untrimmed.
   * There is always at least one piece, so an empty field gives [""].
   */
  function SplitColors(v: string): (r: seq<string>)
    ensures |r| >= 1
    ensures forall i :: 0 <= i < |r| ==> Separator !in r[i]
    decreases |v|
  {
    if v == [] then [""]
    else
      var rest := SplitColors(v[1..]);
      if v[0] == Separator then [""] + rest
      else [[v[0]] + rest[0]] + rest[1..]
  }

  /** A split has one more piece than the field has commas. */
  lemma {:induction false} SplitColorsCount(v: string)
    ensures |SplitColors(v)| == multiset(v)[Separator] + 1
    decreases |v|
  {
    if v != [] {
      SplitColorsCount(v[1..]);
      assert v == [v[0]] + v[1..];
    }
  }

  /** Python's `",".join(parts)`. */
  function JoinColors(parts: seq<string>): string
  {
    if parts == [] then ""
    else if |parts| == 1 then parts[0]
    else parts[0] + [Separator] + JoinColors(parts[1..])
  }

  /** Joining the pieces of a split gives back the field as it was. */
  lemma {:induction false} JoinSplitColors(v: string)
    ensures JoinColors(SplitColors(v)) == v
    decreases |v|
  {
    if v != [] {
      var rest := SplitColors(v[1..]);
      JoinSplitColors(v[1..]);
      assert v == [v[0]] + v[1..];
      if v[0] == Separator {
        assert SplitColors(v) == [""] + rest;
        JoinCons("", rest);
      } else {
        var head := [v[0]] + rest[0];
        assert SplitColors(v) == [head] + rest[1..];
        if |rest| == 1 {
          assert JoinColors([head]) == head;
        } else {
          JoinCons(head, rest[1..]);
          assert rest == [rest[0]] + rest[1..];
          JoinCons(rest[0], rest[1..]);
        }
      }
    }
  }

  /** Joining a piece in front of at least one more puts a comma between them. */
  lemma JoinCons(head: string, tail: seq<string>)
    requires |tail| >= 1
    ensures JoinColors([head] + tail) == head + [Separator] + JoinColors(tail)
  {
  }

  /** Splitting a field whose first piece `p` holds no comma yields `p` glued to the first piece of the rest. */
  lemma {:induction false} SplitAfterPiece(p: string, t: string)
    requires Separator !in p
    ensures SplitColors(p + t) == [p + SplitColors(t)[0]] + SplitColors(t)[1..]
    decreases |p|
  {
    var st := SplitColors(t);
    if p == [] {
      assert p + t == t;
      assert p + st[0] == st[0];
      assert st == [st[0]] + st[1..];
    } else {
      SplitAfterPiece(p[1..], t);
      assert (p + t)[0] == p[0];
      assert (p + t)[1..] == p[1..] + t;
      assert [p[0]] + (p[1..] + st[0]) == p + st[0];
    }
  }

  /** Splitting joined pieces, none of which holds a comma, gives back the pieces. */
  lemma {:induction false} SplitJoinColors(parts: seq<string>)
    requires |parts| >= 1
    requires forall i :: 0 <= i < |parts| ==> Separator !in parts[i]
    ensures SplitColors(JoinColors(parts)) == parts
    decreases |parts|
  {
    if |parts| == 1 {
      SplitAfterPiece(parts[0], "");
      assert parts[0] + "" == parts[0];
    } else {
      var tail := JoinColors(parts[1..]);
      SplitJoinColors(parts[1..]);
      assert ([Separator] + tail)[1..] == tail;
      assert SplitColors([Separator] + tail) == [""] + parts[1..];
      SplitAfterPiece(parts[0], [Separator] + tail);
      assert parts[0] + [Separator] + tail == parts[0] + ([Separator] + tail);
      assert parts[0] + "" == parts[0];
    }
  }

  /**
   * The split is the only list of comma-free pieces whose join is the field:
   * so a colour list with those two properties is the split of the field.
   */
  lemma SplitIsUnique(v: string, pieces: seq<string>)
    requires |pieces| >= 1
    requires forall i :: 0 <= i < |pieces| ==> Separator !in pieces[i]
    requires JoinColors(pieces) == v
    ensures pieces == SplitColors(v)
  {
    SplitJoinColors(pieces);
  }

  /** A participant: the validated record of one spreadsheet row. */
  datatype Paisano = Paisano(
    name: string,
    email: string,
    tshirtSize: ShirtSize,
    colors: seq<string>,
    toKnow: Option<string>,
    alergic: Option<string>)

  /** One spreadsheet row before validation; every cell is text, the optional ones may be empty. */
  datatype Row = Row(
    name: string,
    email: string,
    tshirtSize: string,
    colors: string,
    toKnow: Option<string>,
    alergic: Option<string>)

  /** Why a row is not a participant. */
  datatype FieldError = InvalidShirtSize(token: string)

  /**
   * Validates one row: the shirt size must be one of the fixed tokens, the colour
   * field is split on commas; the other fields are carried over unchanged.
   */
  function ValidatePaisano(row: Row): (r: Result<Paisano, FieldError>)
    ensures r.Ok? <==> row.tshirtSize in SizeTokens
    ensures r.Err? ==> r.error == InvalidShirtSize(row.tshirtSize)
    ensures r.Ok? ==>
      && r.value.name == row.name
      && r.value.email == row.email
      && SizeToken(r.value.tshirtSize) == row.tshirtSize
      && |r.value.colors| >= 1
      && (forall i :: 0 <= i < |r.value.colors| ==> Separator !in r.value.colors[i])
      && JoinColors(r.value.colors) == row.colors
      && r.value.toKnow == row.toKnow
      && r.value.alergic == row.alergic
  {
    match ParseShirtSize(row.tshirtSize)
    case None => Err(InvalidShirtSize(row.tshirtSize))
    case Some(size) =>
      ParseShirtSizeInverts(row.tshirtSize, size);
      JoinSplitColors(row.colors);
      Ok(Paisano(row.name, row.email, size, SplitColors(row.colors), row.toKnow, row.alergic))
  }
}
