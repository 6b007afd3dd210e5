/** Embeddings in a fixed-width vector column (pkg/comdb/vector.go). Numbers are real numbers here. */
module Embeddings {
  import opened Wrappers
  import opened Runes

  /** The width of the VECTOR column. */
  const WIDTH := 3072

  type Vector = seq<real>

  /** How a number is printed ("%.9g") and read (Sscanf "%f"). */
  datatype Codec = Codec(show: real -> string, read: string -> Option<real>)

  /** The text form of the vector, and the dimension stored beside it. */
  datatype Stored = Stored(text: string, dim: nat)

  predicate Supported(dim: nat) { dim in {512, 768, 1536, 3072} }

  function Zeros(n: nat): Vector { seq(n, _ => 0.0) }

  /** A fresh array of the column's width with the embedding copied to its start. */
  function Padded(e: Vector): Vector {
    if |e| <= WIDTH then e + Zeros(WIDTH - |e|) else e[..WIDTH]
  }

  method Pad(e: Vector) returns (padded: array<real>)
    requires |e| <= WIDTH
    ensures fresh(padded) && padded[..] == Padded(e)
  {
    padded := new real[WIDTH](_ => 0.0);
    for i := 0 to |e|
      invariant padded[..] == e[..i] + Zeros(WIDTH - i)
    {
      padded[i] := e[i];
    }
  }

  // ---------- text ----------

  /** Pieces separated by commas. */
  function WithCommas(parts: seq<string>): string {
    if parts == [] then "" else if |parts| == 1 then parts[0] else parts[0] + "," + WithCommas(parts[1..])
  }

  function Shown(codec: Codec, v: Vector): seq<string> {
    if v == [] then [] else [codec.show(v[0])] + Shown(codec, v[1..])
  }

  function VectorToText(codec: Codec, v: Vector): string {
    "[" + WithCommas(Shown(codec, v)) + "]"
  }

  /** strings.Split(s, ","). */
  function Split(s: string): (r: seq<string>)
    ensures r != []
  {
    if s == "" then [""]
    else
      var rest := Split(s[1..]);
      if s[0] == ',' then [""] + rest else [[s[0]] + rest[0]] + rest[1..]
  }

  function ReadAll(codec: Codec, parts: seq<string>): Option<Vector> {
    if parts == [] then Some([])
    else
      match codec.read(Trim(parts[0]))
      case None => None
      case Some(x) => match ReadAll(codec, parts[1..]) case None => None case Some(v) => Some([x] + v)
  }

  function TextToVector(codec: Codec, text: string): Option<Vector> {
    var s := Trim(text);
    if s == "" || s[0] != '[' || s[|s| - 1] != ']' then None
    else
      var inner := s[1..|s| - 1];
      if inner == "" then Some([]) else ReadAll(codec, Split(inner))
  }

  method VectorToString(codec: Codec, vec: Vector) returns (result: string)
    ensures result == VectorToText(codec, vec)
  {
    if |vec| == 0 {
      return "[]";
    }
    result := "[";
    for i := 0 to |vec|
      invariant i == 0 ==> result == "["
      invariant 0 < i < |vec| ==>
                  result + "," + WithCommas(Shown(codec, vec[i..])) == "[" + WithCommas(Shown(codec, vec))
      invariant i == |vec| ==> result == "[" + WithCommas(Shown(codec, vec))
    {
      ShownRound(codec, vec, i);
      if i > 0 {
        result := result + ",";
      }
      result := result + codec.show(vec[i]);
    }
    result := result + "]";
  }

  lemma ShownRound(codec: Codec, vec: Vector, i: nat)
    requires i < |vec|
    ensures WithCommas(Shown(codec, vec[i..])) ==
              if i + 1 == |vec| then codec.show(vec[i])
              else codec.show(vec[i]) + "," + WithCommas(Shown(codec, vec[i + 1..]))
  {
    assert vec[i..][1..] == vec[i + 1..];
    if i + 1 < |vec| {
      assert Shown(codec, vec[i + 1..]) != [];
    }
  }

  method StringToVector(codec: Codec, text: string) returns (r: Option<Vector>)
    ensures r == TextToVector(codec, text)
  {
    var s := Trim(text);
    if |s| == 0 || s[0] != '[' || s[|s| - 1] != ']' {
      return None;
    }
    s := s[1..|s| - 1];
    if s == "" {
      return Some([]);
    }
    var parts := Split(s);
    r := ReadParts(codec, parts);
  }

  /** The loop over the parts, filling an array of their number. */
  method ReadParts(codec: Codec, parts: seq<string>) returns (r: Option<Vector>)
    ensures r == ReadAll(codec, parts)
  {
    hide ReadAll;
    NothingToRead(codec, parts);
    var result := new real[|parts|];
    for i := 0 to |parts|
      invariant ReadAll(codec, parts) == Before(result[..i], ReadAll(codec, parts[i..]))
    {
      ReadRound(codec, parts, i);
      match codec.read(Trim(parts[i]))
      case None =>
        return None;
      case Some(val) =>
        ghost var before := result[..i];
        result[i] := val;
        assert result[..i + 1] == before + [val];
        BeforeOneMore(before, val, ReadAll(codec, parts[i + 1..]));
    }
    assert result[..] == result[..|parts|] + [];
    r := Some(result[..]);
  }

  function Before(v: Vector, o: Option<Vector>): Option<Vector> {
    match o case None => None case Some(w) => Some(v + w)
  }

  lemma BeforeOneMore(v: Vector, x: real, o: Option<Vector>)
    ensures Before(v + [x], o) == Before(v, Before([x], o))
  {
    if o.Some? {
      Assoc(v, [x], o.value);
    }
  }

  lemma NothingToRead(codec: Codec, parts: seq<string>)
    ensures ReadAll(codec, parts[|parts|..]) == Some([])
    ensures ReadAll(codec, parts) == Before([], ReadAll(codec, parts[0..]))
  {
    assert parts[0..] == parts;
    var all := ReadAll(codec, parts);
    if all.Some? {
      assert [] + all.value == all.value;
    }
  }

  lemma ReadRound(codec: Codec, parts: seq<string>, i: nat)
    requires i < |parts|
    ensures ReadAll(codec, parts[i..]) ==
              match codec.read(Trim(parts[i]))
              case None => None
              case Some(x) => Before([x], ReadAll(codec, parts[i + 1..]))
  {
    assert parts[i..][1..] == parts[i + 1..];
  }

  // ---------- storing and reading back ----------

  /** What the codec must do for a number: read back what it printed, and print nothing that clashes with the syntax. */
  predicate Faithful(codec: Codec, x: real) {
    var text := codec.show(x);
    codec.read(text) == Some(x) && text != "" && Trim(text) == text && ',' !in text
  }

  predicate AllFaithful(codec: Codec, v: Vector) {
    forall i | 0 <= i < |v| :: Faithful(codec, v[i])
  }

  /** Parts that hold the numbers of v, possibly with white space around them. */
  predicate Denotes(codec: Codec, parts: seq<string>, v: Vector) {
    |parts| == |v| && forall i | 0 <= i < |v| :: Trim(parts[i]) == codec.show(v[i]) && ',' !in parts[i]
  }

  lemma {:induction false} SplitOne(part: string)
    requires ',' !in part
    ensures Split(part) == [part]
  {
    if part != "" {
      SplitOne(part[1..]);
      assert [part[0]] + part[1..] == part;
    }
  }

  lemma {:induction false} SplitFirst(part: string, rest: string)
    requires ',' !in part
    ensures Split(part + "," + rest) == [part] + Split(rest)
  {
    var s := part + "," + rest;
    if part == "" {
      assert s[1..] == rest;
    } else {
      SplitFirst(part[1..], rest);
      assert s[1..] == part[1..] + "," + rest;
      assert [part[0]] + part[1..] == part;
    }
  }

  /** Splitting at commas undoes joining with commas. */
  lemma {:induction false} SplitUndoesCommas(parts: seq<string>)
    requires parts != [] && forall p | p in parts :: ',' !in p
    ensures Split(WithCommas(parts)) == parts
  {
    if |parts| == 1 {
      SplitOne(parts[0]);
    } else {
      SplitUndoesCommas(parts[1..]);
      SplitFirst(parts[0], WithCommas(parts[1..]));
    }
  }

  lemma {:induction false} ReadAllBack(codec: Codec, parts: seq<string>, v: Vector)
    requires Denotes(codec, parts, v) && AllFaithful(codec, v)
    ensures ReadAll(codec, parts) == Some(v)
  {
    if v != [] {
      assert Trim(parts[0]) == codec.show(v[0]) && Faithful(codec, v[0]);
      assert [v[0]] + v[1..] == v;
      ReadAllBack(codec, parts[1..], v[1..]);
    }
  }

  lemma WithCommasNonEmpty(parts: seq<string>)
    requires parts != [] && parts[0] != ""
    ensures WithCommas(parts) != ""
  {
  }

  /** Any list of the numbers in brackets is read as the vector, whatever white space the database puts in. */
  lemma ReadsBack(codec: Codec, before: string, parts: seq<string>, after: string, v: Vector)
    requires Denotes(codec, parts, v) && AllFaithful(codec, v)
    requires Trim(before + ("[" + WithCommas(parts) + "]") + after) == "[" + WithCommas(parts) + "]"
    ensures TextToVector(codec, before + ("[" + WithCommas(parts) + "]") + after) == Some(v)
  {
    var s := "[" + WithCommas(parts) + "]";
    assert s[1..|s| - 1] == WithCommas(parts);
    if v != [] {
      assert Trim(parts[0]) == codec.show(v[0]) && Faithful(codec, v[0]);
      assert parts[0] != "";
      WithCommasNonEmpty(parts);
      SplitUndoesCommas(parts);
      ReadAllBack(codec, parts, v);
    }
  }

  lemma {:induction false} ShownDenotes(codec: Codec, v: Vector)
    requires AllFaithful(codec, v)
    ensures Denotes(codec, Shown(codec, v), v)
  {
    if v != [] {
      assert Faithful(codec, v[0]);
      ShownDenotes(codec, v[1..]);
    }
  }

  /** Printing a vector and parsing the text gives the vector back. */
  lemma {:induction false} TextRoundTrip(codec: Codec, v: Vector)
    requires AllFaithful(codec, v)
    ensures TextToVector(codec, VectorToText(codec, v)) == Some(v)
  {
    ShownDenotes(codec, v);
    var s := VectorToText(codec, v);
    BracketsTrimmed(s);
    assert "" + s + "" == s;
    ReadsBack(codec, "", Shown(codec, v), "", v);
  }

  lemma BracketsTrimmed(s: string)
    requires s != "" && s[0] == '[' && s[|s| - 1] == ']'
    ensures Trim(s) == s
  {
  }

  lemma {:induction false} ReadAllIff(codec: Codec, parts: seq<string>)
    ensures ReadAll(codec, parts).Some? <==> forall i | 0 <= i < |parts| :: codec.read(Trim(parts[i])).Some?
  {
    if parts != [] {
      ReadAllIff(codec, parts[1..]);
      assert forall i | 0 < i < |parts| :: parts[i] == parts[1..][i - 1];
      assert forall i | 0 <= i < |parts[1..]| :: parts[1..][i] == parts[i + 1];
    }
  }

  /**
    What is refused: a text that is not in brackets after trimming, and otherwise, unless nothing
    stands in the brackets, exactly a text with a part that is no number.
   */
  lemma RefusedIff(codec: Codec, text: string, parts: seq<string>)
    requires parts != [] && forall p | p in parts :: ',' !in p
    ensures Trim(text) == "" || Trim(text)[0] != '[' || Trim(text)[|Trim(text)| - 1] != ']' ==>
              TextToVector(codec, text) == None
    ensures Trim(text) == "[" + WithCommas(parts) + "]" && parts != [""] ==>
              (TextToVector(codec, text) == None
               <==> exists i :: 0 <= i < |parts| && codec.read(Trim(parts[i])) == None)
    ensures Trim(text) == "[]" ==> TextToVector(codec, text) == Some([])
  {
    hide ReadAll, Split, Trim;
    var s := "[" + WithCommas(parts) + "]";
    assert s[1..|s| - 1] == WithCommas(parts);
    assert "[]"[1..1] == "";
    SplitUndoesCommas(parts);
    ReadAllIff(codec, parts);
    assert WithCommas(parts) == "" ==> parts == [""];
  }

  /** SaveEmbedding up to the database call. */
  function Save(codec: Codec, e: Vector): Option<Stored> {
    if Supported(|e|) then Some(Stored(VectorToText(codec, Padded(e)), |e|)) else None
  }

  /** Reading a row as the listing and the search do: the padding is cut off. */
  function Load(codec: Codec, row: Stored): Option<Vector> {
    match TextToVector(codec, row.text)
    case None => None
    case Some(full) => Some(if 0 < row.dim <= |full| then full[..row.dim] else full)
  }

  /** Reading a row as GetEmbedding does. */
  function Fetch(codec: Codec, row: Stored): Option<Vector> {
    TextToVector(codec, row.text)
  }

  /**
    Storing an embedding of a supported dimension and listing it gives the embedding back, while
    GetEmbedding gives it back exactly when it fills the column: otherwise with the padding.
   */
  lemma {:induction false} StoreThenRead(codec: Codec, e: Vector)
    requires Supported(|e|) && Faithful(codec, 0.0) && AllFaithful(codec, e)
    ensures Load(codec, Save(codec, e).value) == Some(e)
    ensures Fetch(codec, Save(codec, e).value) == Some(e + Zeros(WIDTH - |e|))
    ensures Fetch(codec, Save(codec, e).value) == Some(e) <==> |e| == WIDTH
  {
    TextRoundTrip(codec, Padded(e));
    assert Padded(e)[..|e|] == e && |Padded(e)| == WIDTH;
    assert |e| == WIDTH ==> Padded(e) == e;
  }

  /** An embedding is stored exactly if it has one of the four dimensions. */
  lemma StoredIff(codec: Codec, e: Vector)
    ensures Save(codec, e).Some? <==> |e| == 512 || |e| == 768 || |e| == 1536 || |e| == 3072
  {
    var dims := {512, 768, 1536, 3072};
    assert 512 in dims && 768 in dims && 1536 in dims && 3072 in dims;
  }

  // ---------- similarity ----------

  function Dot(a: Vector, b: Vector): real
    requires |a| == |b|
  {
    if a == [] then 0.0 else Dot(a[..|a| - 1], b[..|b| - 1]) + Times(a[|a| - 1], b[|b| - 1])
  }

  function Times(x: real, y: real): real { x * y }

  /** Square roots of positive numbers are positive and square to them. */
  ghost predicate IsRoot(sqrt: real -> real) {
    forall x: real :: x > 0.0 ==> sqrt(x) > 0.0 && sqrt(x) * sqrt(x) == x
  }

  /** The quotient of a dot product and two squared norms; 0 when a norm is. */
  ghost function Normalised(sqrt: real -> real, q: real, p: real, r: real): real
    requires IsRoot(sqrt) && p >= 0.0 && r >= 0.0
  {
    if p == 0.0 || r == 0.0 then 0.0
    else
      PositiveProduct(sqrt(p), sqrt(r));
      q / (sqrt(p) * sqrt(r))
  }

  ghost function Cosine(sqrt: real -> real, a: Vector, b: Vector): real
    requires IsRoot(sqrt)
  {
    if |a| != |b| then 0.0
    else
      NormPositive(a);
      NormPositive(b);
      Normalised(sqrt, Dot(a, b), Dot(a, a), Dot(b, b))
  }

  method CosineSimilarity(sqrt: real -> real, a: Vector, b: Vector) returns (r: real)
    requires IsRoot(sqrt)
    ensures r == Cosine(sqrt, a, b)
  {
    if |a| != |b| {
      return 0.0;
    }
    var dotProduct, normA, normB := 0.0, 0.0, 0.0;
    for i := 0 to |a|
      invariant dotProduct == Dot(a[..i], b[..i]) && normA == Dot(a[..i], a[..i]) && normB == Dot(b[..i], b[..i])
    {
      assert a[..i + 1][..i] == a[..i] && b[..i + 1][..i] == b[..i];
      dotProduct := dotProduct + a[i] * b[i];
      normA := normA + a[i] * a[i];
      normB := normB + b[i] * b[i];
    }
    assert a[..|a|] == a && b[..|b|] == b;
    NormPositive(a);
    NormPositive(b);
    if normA == 0.0 || normB == 0.0 {
      return 0.0;
    }
    PositiveProduct(sqrt(normA), sqrt(normB));
    r := dotProduct / (sqrt(normA) * sqrt(normB));
  }

  lemma PositiveProduct(x: real, y: real)
    requires x > 0.0 && y > 0.0
    ensures x * y > 0.0
  {
  }

  lemma NormPositive(a: Vector)
    ensures Dot(a, a) >= 0.0
  {
    if a != [] {
      NormPositive(a[..|a| - 1]);
      Square(a[|a| - 1]);
    }
  }

  lemma Square(x: real)
    ensures x * x >= 0.0
  {
  }

  lemma DotSnoc(a: Vector, b: Vector, x: real, y: real)
    requires |a| == |b|
    ensures Dot(a + [x], b + [y]) == Dot(a, b) + Times(x, y)
  {
    hide Times;
    assert (a + [x])[..|a|] == a && (b + [y])[..|b|] == b;
  }

  lemma {:induction false} DotZeros(a: Vector, b: Vector, n: nat)
    requires |a| == |b|
    ensures Dot(a + Zeros(n), b + Zeros(n)) == Dot(a, b)
  {
    hide Dot;
    if n == 0 {
      assert a + Zeros(0) == a && b + Zeros(0) == b;
    } else {
      DotZeros(a, b, n - 1);
      DotSnoc(a + Zeros(n - 1), b + Zeros(n - 1), 0.0, 0.0);
      assert a + Zeros(n) == a + Zeros(n - 1) + [0.0];
      assert b + Zeros(n) == b + Zeros(n - 1) + [0.0];
    }
  }

  /** Padding two embeddings of one dimension changes neither dot product, norms nor cosine. */
  lemma PaddingKeepsSimilarity(sqrt: real -> real, a: Vector, b: Vector)
    requires IsRoot(sqrt) && |a| == |b| <= WIDTH
    ensures Dot(Padded(a), Padded(b)) == Dot(a, b)
    ensures Dot(Padded(a), Padded(a)) == Dot(a, a)
    ensures Cosine(sqrt, Padded(a), Padded(b)) == Cosine(sqrt, a, b)
  {
    hide Dot, Normalised;
    assert |Padded(a)| == |Padded(b)|;
    DotZeros(a, b, WIDTH - |a|);
    DotZeros(a, a, WIDTH - |a|);
    DotZeros(b, b, WIDTH - |a|);
  }

  /**
    The similarity times both roots is the dot product, a vector that is not zero has similarity 1
    to itself, and 0 is the similarity of vectors of different dimensions and to a zero vector.
   */
  lemma CosineIs(sqrt: real -> real, a: Vector, b: Vector)
    requires IsRoot(sqrt)
    ensures |a| == |b| && Dot(a, a) > 0.0 && Dot(b, b) > 0.0 ==>
              Cosine(sqrt, a, b) * (sqrt(Dot(a, a)) * sqrt(Dot(b, b))) == Dot(a, b)
    ensures Dot(a, a) > 0.0 ==> Cosine(sqrt, a, a) == 1.0
    ensures |a| != |b| || Dot(a, a) == 0.0 || Dot(b, b) == 0.0 ==> Cosine(sqrt, a, b) == 0.0
  {
    hide Dot;
    NormPositive(a);
    NormPositive(b);
    if Dot(a, a) > 0.0 && Dot(b, b) > 0.0 {
      PositiveProduct(sqrt(Dot(a, a)), sqrt(Dot(b, b)));
    }
    if Dot(a, a) > 0.0 {
      SelfQuotient(Dot(a, a), sqrt(Dot(a, a)));
    }
  }

  lemma SelfQuotient(p: real, u: real)
    requires p > 0.0 && u * u == p
    ensures p / (u * u) == 1.0
  {
  }

  /** Only zero vectors have the norm 0. */
  lemma {:induction false} NormZeroIff(a: Vector)
    ensures Dot(a, a) == 0.0 <==> forall i | 0 <= i < |a| :: a[i] == 0.0
  {
    if a != [] {
      hide Times;
      var n := |a| - 1;
      var init := a[..n];
      NormZeroIff(init);
      NormPositive(init);
      TimesItself(a[n]);
      assert forall i | 0 <= i < n :: a[i] == init[i];
      assert Dot(a, a) == 0.0 <==> Dot(init, init) == 0.0 && a[n] == 0.0;
    }
  }

  lemma TimesItself(x: real)
    ensures if x == 0.0 then Times(x, x) == 0.0 else Times(x, x) > 0.0
  {
    if x != 0.0 {
      TimesPositive(x, x);
    }
  }

  lemma TimesPositive(x: real, y: real)
    requires (x > 0.0 && y > 0.0) || (x < 0.0 && y < 0.0)
    ensures Times(x, y) > 0.0
  {
    assert x * y > 0.0;
  }

  // ---------- the range of the result ----------

  /** The squared length of a vector minus t times another, from their squared lengths and dot product. */
  function Difference(p: real, q: real, r: real, t: real): real { p - 2.0 * t * q + t * t * r }

  lemma DifferenceGrows(p: real, q: real, r: real, x: real, y: real, t: real)
    ensures Difference(p + Times(x, x), q + Times(x, y), r + Times(y, y), t) >= Difference(p, q, r, t)
  {
    Square(x - t * y);
    assert (x - t * y) * (x - t * y) == x * x - 2.0 * t * (x * y) + t * t * (y * y);
    assert 2.0 * t * (q + x * y) == 2.0 * t * q + 2.0 * t * (x * y);
    assert t * t * (r + y * y) == t * t * r + t * t * (y * y);
  }

  lemma {:induction false} DifferencePositive(a: Vector, b: Vector, t: real)
    requires |a| == |b|
    ensures Difference(Dot(a, a), Dot(a, b), Dot(b, b), t) >= 0.0
  {
    if a != [] {
      hide Times, Difference;
      var n := |a| - 1;
      DifferencePositive(a[..n], b[..n], t);
      DifferenceGrows(Dot(a[..n], a[..n]), Dot(a[..n], b[..n]), Dot(b[..n], b[..n]), a[n], b[n], t);
    }
  }

  /** The Cauchy-Schwarz inequality. */
  lemma DotBounded(a: Vector, b: Vector)
    requires |a| == |b| && Dot(b, b) > 0.0
    ensures Dot(a, b) * Dot(a, b) <= Dot(a, a) * Dot(b, b)
  {
    hide Dot;
    DifferencePositive(a, b, Dot(a, b) / Dot(b, b));
    ClearDenominator(Dot(a, a), Dot(a, b), Dot(b, b));
  }

  lemma ClearDenominator(p: real, q: real, r: real)
    requires r > 0.0 && Difference(p, q, r, q / r) >= 0.0
    ensures q * q <= p * r
  {
    var t := q / r;
    assert t * r == q;
    assert t * t * r == t * q;
    assert p - t * q >= 0.0;
    assert (p - t * q) * r >= 0.0;
    assert t * q * r == q * q;
  }

  /**
    The similarity of any two vectors is between -1 and 1. This is a law of the real numbers: the
    float32 arithmetic of the code may round past 1 or overflow a norm, which is not modelled.
   */
  lemma CosineInRange(sqrt: real -> real, a: Vector, b: Vector)
    requires IsRoot(sqrt)
    ensures -1.0 <= Cosine(sqrt, a, b) <= 1.0
  {
    hide Dot, Normalised;
    if |a| == |b| {
      NormPositive(a);
      NormPositive(b);
      if Dot(b, b) > 0.0 {
        DotBounded(a, b);
      }
      NormalisedInRange(sqrt, Dot(a, b), Dot(a, a), Dot(b, b));
    }
  }

  lemma NormalisedInRange(sqrt: real -> real, q: real, p: real, r: real)
    requires IsRoot(sqrt) && p >= 0.0 && r >= 0.0 && (r > 0.0 ==> q * q <= p * r)
    ensures -1.0 <= Normalised(sqrt, q, p, r) <= 1.0
  {
    if p > 0.0 && r > 0.0 {
      PositiveProduct(sqrt(p), sqrt(r));
      QuotientInRange(q, sqrt(p), sqrt(r));
    }
  }

  lemma LargerSquare(w: real, q: real)
    requires 0.0 < w < q
    ensures q * q > w * w
  {
    assert q * q > q * w > w * w;
  }

  lemma QuotientInRange(q: real, u: real, v: real)
    requires u * v > 0.0 && q * q <= (u * u) * (v * v)
    ensures -1.0 <= q / (u * v) <= 1.0
  {
    var w := u * v;
    assert q * q <= w * w;
    if q > w {
      LargerSquare(w, q);
    }
    if -q > w {
      LargerSquare(w, -q);
    }
    assert q / w * w == q;
  }
}
