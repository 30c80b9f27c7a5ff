/** The plain PGM reader and printer of the session engine. */
module Pgm {
  import opened Arith
  import opened Text

  const MAX_FIXTURE_BYTES: nat := 0x10_0000
  const MAX_EXPORT_BYTES: nat := 0x2000_0000
  const MAX_TOKENS: nat := MAX_FIXTURE_BYTES / 2

  const BAD_PGM := "PGM fixture is invalid"
  const PGM_MISMATCH := "PGM fixture does not match page metadata"
  const PGM_TOO_LARGE := "PGM derivative exceeds its safe limit"

  type Pixel = p: int | 0 <= p < 256

  /** Gray pixels in row-major order. */
  datatype Image = Image(width: nat, height: nat, pixels: seq<Pixel>) {
    predicate Valid() {
      |pixels| == width * height
    }
  }

  // ------------------------------------------------------------------ tokens

  predicate IsSpace(c: char) {
    c == ' ' || c == '\t' || c == '\r' || c == '\n'
  }

  predicate IsSeparator(c: char) {
    c == '#' || IsSpace(c)
  }

  /** What is left once the rest of a comment is dropped; its newline stays. */
  function AfterComment(s: string): (r: string)
    ensures |r| <= |s|
  {
    if s == "" || s[0] == '\n' then s else AfterComment(s[1..])
  }

  /** The text without leading white space and comments. */
  function Skip(s: string): (r: string)
    ensures |r| <= |s|
    ensures r != "" ==> !IsSeparator(r[0])
    decreases |s|
  {
    if s == "" then ""
    else if s[0] == '#' then Skip(AfterComment(s[1..]))
    else if IsSpace(s[0]) then Skip(s[1..])
    else s
  }

  /** Length of the longest prefix without separators. */
  function WordLength(s: string): (n: nat)
    ensures n <= |s|
    ensures forall i :: 0 <= i < n ==> !IsSeparator(s[i])
    ensures n < |s| ==> IsSeparator(s[n])
  {
    if s == "" || IsSeparator(s[0]) then 0 else 1 + WordLength(s[1..])
  }

  predicate GoodToken(t: string) {
    |t| <= 16 && forall i :: 0 <= i < |t| ==> 0x21 as char <= t[i] <= 0x7e as char
  }

  /** All tokens of a text, or the tokenizer's one error. */
  function Tokens(s: string): (r: Result<seq<string>>)
    ensures r.Err? ==> r.error == BAD_PGM
    decreases |s|
  {
    var t := Skip(s);
    if t == "" then Ok([])
    else
      var n := WordLength(t);
      if !GoodToken(t[..n]) then Err(BAD_PGM)
      else Prepend([t[..n]], Tokens(t[n..]))
  }

  function Prepend(front: seq<string>, r: Result<seq<string>>): Result<seq<string>> {
    match r
    case Ok(rest) => Ok(front + rest)
    case Err(_) => r
  }

  /** The tokenizer with its guard on the number of tokens. */
  function PgmTokens(s: string): Result<seq<string>> {
    match Tokens(s)
    case Ok(ts) => if |ts| > MAX_TOKENS then Err(BAD_PGM) else Ok(ts)
    case Err(e) => Err(e)
  }

  /** A token costs one character and, but for the last one, a separator. */
  lemma {:induction false} TokenCount(s: string)
    requires Tokens(s).Ok?
    ensures 2 * |Tokens(s).value| <= |s| + 1
    ensures s != "" && IsSeparator(s[0]) ==> 2 * |Tokens(s).value| <= |s|
    decreases |s|
  {
    var t := Skip(s);
    if t != "" {
      TokenCount(t[WordLength(t)..]);
    }
  }

  /** The guard on the token count never fires within the file size limit. */
  lemma {:induction false} TokenGuardIsUnreachable(s: string)
    requires |s| <= MAX_FIXTURE_BYTES
    ensures PgmTokens(s) == Tokens(s)
  {
    if Tokens(s).Ok? {
      TokenCount(s);
    }
  }

  lemma {:induction false} TokensFollowSkip(s: string, t: string)
    requires Skip(s) == Skip(t)
    ensures Tokens(s) == Tokens(t)
  {
  }

  lemma PrependNothing(r: Result<seq<string>>)
    ensures Prepend([], r) == r
  {
    if r.Ok? {
      assert [] + r.value == r.value;
    }
  }

  lemma PrependTwice(a: seq<string>, b: seq<string>, r: Result<seq<string>>)
    ensures Prepend(a, Prepend(b, r)) == Prepend(a + b, r)
  {
    if r.Ok? {
      assert a + (b + r.value) == a + b + r.value;
    }
  }

  lemma {:induction false} WordLengthIs(s: string, n: nat)
    requires n <= |s| && forall i :: 0 <= i < n ==> !IsSeparator(s[i])
    ensures WordLength(s) >= n
    ensures n == |s| || IsSeparator(s[n]) ==> WordLength(s) == n
  {
    if n > 0 {
      WordLengthIs(s[1..], n - 1);
    }
  }

  lemma TokensOfNothing()
    ensures Tokens("") == Ok([])
  {
  }

  /** A text that starts with a word: its first token, if the word is a good one. */
  lemma {:induction false} FirstWord(s: string, n: nat)
    requires 0 < n <= |s| && forall i :: 0 <= i < n ==> !IsSeparator(s[i])
    requires n == |s| || IsSeparator(s[n])
    ensures GoodToken(s[..n]) ==> Tokens(s) == Prepend([s[..n]], Tokens(s[n..]))
    ensures !GoodToken(s[..n]) ==> Tokens(s) == Err(BAD_PGM)
  {
    WordLengthIs(s, n);
  }

  /** A word that turns bad at character n spoils the whole text. */
  lemma {:induction false} BadWord(s: string, n: nat)
    requires n < |s| && forall i :: 0 <= i <= n ==> !IsSeparator(s[i])
    requires n >= 16 || s[n] < 0x21 as char || s[n] > 0x7e as char
    ensures Tokens(s) == Err(BAD_PGM)
  {
    WordLengthIs(s, n + 1);
    var word := s[..WordLength(s)];
    assert word[n] == s[n];
    FirstWord(s, WordLength(s));
  }

  lemma {:induction false} SkippedComment(s: string, n: nat)
    requires 0 < n <= |s| && s[0] == '#' && AfterComment(s[1..]) == s[n..]
    ensures Tokens(s) == Tokens(s[n..])
  {
    TokensFollowSkip(s, s[n..]);
  }

  lemma {:induction false} SkippedSpace(s: string)
    requires s != "" && IsSpace(s[0])
    ensures Tokens(s) == Tokens(s[1..])
  {
    TokensFollowSkip(s, s[1..]);
  }

  lemma NothingIsGood()
    ensures GoodToken("")
  {
  }

  lemma GoodTokenGrows(token: string, c: char)
    requires GoodToken(token) && |token| < 16 && 0x21 as char <= c <= 0x7e as char
    ensures GoodToken(token + [c])
  {
  }

  /** The inner loop of pgm_tokens: one token, unless it has a bad character or is too long. */
  method ReadWord(bytes: string, start: nat) returns (r: Result<string>, index: nat)
    requires start < |bytes| && !IsSeparator(bytes[start])
    ensures r.Err? ==> r.error == BAD_PGM && Tokens(bytes[start..]) == Err(BAD_PGM)
    ensures r.Ok? ==> start < index <= |bytes| && r.value == bytes[start..index]
    ensures r.Ok? ==> Tokens(bytes[start..]) == Prepend([r.value], Tokens(bytes[index..]))
  {
    hide Tokens, WordLength, Prepend, GoodToken, IsSeparator;
    ghost var rest := bytes[start..];
    var token := "";
    index := start;
    NothingIsGood();
    while index < |bytes|
      invariant start <= index <= |bytes|
      invariant token == bytes[start..index] && GoodToken(token)
      invariant forall i :: 0 <= i < index - start ==> !IsSeparator(rest[i])
    {
      var current := bytes[index];
      assert rest[index - start] == current;
      if IsSeparator(current) {
        break;
      }
      if current < 0x21 as char || current > 0x7e as char || |token| >= 16 {
        BadWord(rest, index - start);
        return Err(BAD_PGM), index;
      }
      GoodTokenGrows(token, current);
      token := token + [current];
      index := index + 1;
    }
    FirstWord(rest, index - start);
    assert rest[..index - start] == token && rest[index - start..] == bytes[index..];
    r := Ok(token);
  }

  /** pgm_tokens: one pass over the bytes with an index. */
  method ReadTokens(bytes: string) returns (r: Result<seq<string>>)
    ensures r == PgmTokens(bytes)
  {
    hide Tokens;
    var tokens: seq<string> := [];
    var index := 0;
    assert bytes[0..] == bytes;
    PrependNothing(Tokens(bytes));
    while index < |bytes|
      invariant 0 <= index <= |bytes|
      invariant Tokens(bytes) == Prepend(tokens, Tokens(bytes[index..]))
      invariant |tokens| <= MAX_TOKENS
    {
      var start := index;
      ghost var rest := bytes[start..];
      if bytes[index] == '#' {
        index := index + 1;
        while index < |bytes| && bytes[index] != '\n'
          invariant start < index <= |bytes|
          invariant AfterComment(rest[1..]) == AfterComment(bytes[index..])
        {
          index := index + 1;
        }
        assert rest[index - start..] == bytes[index..];
        SkippedComment(rest, index - start);
        continue;
      }
      if IsSpace(bytes[index]) {
        index := index + 1;
        assert rest[1..] == bytes[index..];
        SkippedSpace(rest);
        continue;
      }
      var token, next := ReadWord(bytes, index);
      if token.Err? {
        return Err(token.error);
      }
      index := next;
      PrependTwice(tokens, [token.value], Tokens(bytes[index..]));
      tokens := tokens + [token.value];
      if |tokens| > MAX_TOKENS {
        return Err(BAD_PGM);
      }
    }
    assert bytes[index..] == "" && tokens + [] == tokens;
    TokensOfNothing();
    return Ok(tokens);
  }

  // ---------------------------------------------------------------- decoding

  function Samples(tokens: seq<string>): (r: Result<seq<Pixel>>)
    ensures r.Ok? ==> |r.value| == |tokens|
  {
    if tokens == [] then Ok([])
    else
      var value :- ParseU32(tokens[0], "PGM value");
      if value > 255 then Err(BAD_PGM)
      else var rest :- Samples(tokens[1..]); Ok([value] + rest)
  }

  /** The pixels of a plain PGM whose header states the expected size. */
  function DecodePgm(bytes: string, width: U32, height: U32): (r: Result<seq<Pixel>>)
    ensures r.Ok? ==> |r.value| == width * height <= MAX_EXPORT_BYTES
  {
    var tokens :- PgmTokens(bytes);
    if width * height > MAX_EXPORT_BYTES || |tokens| != width * height + 4 || tokens[0] != "P2" then Err(PGM_MISMATCH)
    else
      var w :- ParseU32(tokens[1], "PGM value");
      if w != width then Err(PGM_MISMATCH) else
      var h :- ParseU32(tokens[2], "PGM value");
      if h != height then Err(PGM_MISMATCH) else
      var maximum :- ParseU32(tokens[3], "PGM value");
      if maximum != 255 then Err(PGM_MISMATCH) else Samples(tokens[4..])
  }

  function PrependPixels(front: seq<Pixel>, r: Result<seq<Pixel>>): Result<seq<Pixel>> {
    match r
    case Ok(rest) => Ok(front + rest)
    case Err(_) => r
  }

  lemma SamplesStep(front: seq<Pixel>, tokens: seq<string>, value: Pixel)
    requires tokens != [] && ParseU32(tokens[0], "PGM value") == Ok(value)
    ensures PrependPixels(front, Samples(tokens)) == PrependPixels(front + [value], Samples(tokens[1..]))
  {
    var rest := Samples(tokens[1..]);
    if rest.Ok? {
      assert front + ([value] + rest.value) == front + [value] + rest.value;
    }
  }

  /** decode_pgm. */
  method ReadPgm(bytes: string, width: U32, height: U32) returns (r: Result<seq<Pixel>>)
    ensures r == DecodePgm(bytes, width, height)
  {
    var tokens :- ReadTokens(bytes);
    var count := width * height;
    if count > MAX_EXPORT_BYTES || |tokens| != count + 4 || tokens[0] != "P2" {
      return Err(PGM_MISMATCH);
    }
    var w :- ParseU32(tokens[1], "PGM value");
    if w != width { return Err(PGM_MISMATCH); }
    var h :- ParseU32(tokens[2], "PGM value");
    if h != height { return Err(PGM_MISMATCH); }
    var maximum :- ParseU32(tokens[3], "PGM value");
    if maximum != 255 { return Err(PGM_MISMATCH); }
    var pixels: seq<Pixel> := [];
    var index := 4;
    if Samples(tokens[4..]).Ok? {
      assert [] + Samples(tokens[4..]).value == Samples(tokens[4..]).value;
    }
    while index < |tokens|
      invariant 4 <= index <= |tokens|
      invariant Samples(tokens[4..]) == PrependPixels(pixels, Samples(tokens[index..]))
    {
      var value :- ParseU32(tokens[index], "PGM value");
      if value > 255 {
        return Err(BAD_PGM);
      }
      SamplesStep(pixels, tokens[index..], value);
      assert tokens[index..][1..] == tokens[index + 1..];
      pixels := pixels + [value];
      index := index + 1;
    }
    assert tokens[index..] == [] && pixels + [] == pixels;
    return Ok(pixels);
  }

  // ---------------------------------------------------------------- printing

  function PgmComment(): string {
    " Just Scanner synthetic derivative"
  }

  /** One row of samples separated by single blanks. */
  function RowText(row: seq<Pixel>): string {
    if row == [] then ""
    else
      var n := |row| - 1;
      if n == 0 then Dec(row[0]) else RowText(row[..n]) + " " + Dec(row[n])
  }

  function Row(image: Image, y: nat): (row: seq<Pixel>)
    requires image.Valid() && y < image.height
    ensures |row| == image.width
  {
    RowBounds(y, image.height, image.width);
    image.pixels[y * image.width..(y + 1) * image.width]
  }

  lemma RowAt(image: Image, y: nat, x: nat)
    requires image.Valid() && y < image.height && x < image.width
    ensures 0 <= y * image.width + x < |image.pixels|
    ensures Row(image, y)[x] == image.pixels[y * image.width + x]
  {
    RowBounds(y, image.height, image.width);
  }

  lemma RowTextOfNothing()
    ensures RowText([]) == ""
  {
  }

  lemma RowTextStep(row: seq<Pixel>, x: nat)
    requires x < |row|
    ensures RowText(row[..x + 1]) == RowText(row[..x]) + (if x == 0 then "" else " ") + Dec(row[x])
  {
    assert row[..x + 1][..x] == row[..x];
  }

  /** The first `count` rows, each ended by a newline. */
  function RowsText(image: Image, count: nat): string
    requires image.Valid() && count <= image.height
  {
    if count == 0 then "" else RowsText(image, count - 1) + RowText(Row(image, count - 1)) + "\n"
  }

  /** The printed header followed by `rest`. */
  function HeaderThen(width: nat, height: nat, rest: string): string {
    "P2" + "\n" + ("#" + PgmComment() + "\n" + (Dec(width) + " " + (Dec(height) + "\n" + ("255" + "\n" + rest))))
  }

  lemma HeaderFirst(width: nat, height: nat, rest: string)
    ensures HeaderThen(width, height, "") + rest == HeaderThen(width, height, rest)
  {
    hide PgmComment, Dec;
    var a, b := "255" + "\n", Dec(height) + "\n";
    var c, d := Dec(width) + " ", "#" + PgmComment() + "\n";
    assert (a + "") + rest == a + rest;
    assert (b + (a + "")) + rest == b + (a + rest);
    assert (c + (b + (a + ""))) + rest == c + (b + (a + rest));
    assert (d + (c + (b + (a + "")))) + rest == d + (c + (b + (a + rest)));
  }

  function PgmText(image: Image): string
    requires image.Valid()
  {
    HeaderThen(image.width, image.height, RowsText(image, image.height))
  }

  function EncodePgm(image: Image): Result<string>
    requires image.Valid()
  {
    if |PgmText(image)| > MAX_FIXTURE_BYTES then Err(PGM_TOO_LARGE) else Ok(PgmText(image))
  }

  /** encode_ascii_pgm: nested loops over rows and columns. */
  method PrintPgm(image: Image) returns (r: Result<string>)
    requires image.Valid()
    ensures r == EncodePgm(image)
  {
    hide HeaderThen, RowText, Dec;
    RowTextOfNothing();
    var output := HeaderThen(image.width, image.height, "");
    ghost var header := output;
    var y := 0;
    while y < image.height
      invariant 0 <= y <= image.height
      invariant output == header + RowsText(image, y)
    {
      ghost var before := output;
      ghost var row := Row(image, y);
      var x := 0;
      while x < image.width
        invariant 0 <= x <= image.width == |row|
        invariant output == before + RowText(row[..x])
      {
        RowAt(image, y, x);
        RowTextStep(row, x);
        if x != 0 {
          output := output + " ";
        }
        output := output + Dec(image.pixels[y * image.width + x]);
        x := x + 1;
      }
      assert row[..x] == row;
      output := output + "\n";
      y := y + 1;
    }
    HeaderFirst(image.width, image.height, RowsText(image, y));
    if |output| > MAX_FIXTURE_BYTES {
      return Err(PGM_TOO_LARGE);
    }
    return Ok(output);
  }

  // -------------------------------------------------------------- round trip

  predicate Ends(s: string) {
    s == "" || IsSeparator(s[0])
  }

  /** A good word before a separator is read as one token. */
  lemma TokensOfWord(word: string, rest: string)
    requires word != "" && GoodToken(word) && Ends(rest)
    requires forall i :: 0 <= i < |word| ==> !IsSeparator(word[i])
    ensures Tokens(word + rest) == Prepend([word], Tokens(rest))
  {
    var s := word + rest;
    WordLengthIs(s, |word|);
    assert s[..|word|] == word && s[|word|..] == rest;
  }

  lemma TokensOfNumber(n: U32, rest: string)
    requires Ends(rest)
    ensures Tokens(Dec(n) + rest) == Prepend([Dec(n)], Tokens(rest))
  {
    DecLength(n, 10);
    assert Pow10(10) == 100000 * Pow10(5);
    forall i | 0 <= i < |Dec(n)| ensures !IsSeparator(Dec(n)[i]) && 0x21 as char <= Dec(n)[i] <= 0x7e as char {
      assert IsDigit(Dec(n)[i]);
    }
    TokensOfWord(Dec(n), rest);
  }

  lemma TokensAfterSpace(c: char, rest: string)
    requires IsSpace(c)
    ensures Tokens([c] + rest) == Tokens(rest)
  {
    assert ([c] + rest)[1..] == rest;
    TokensFollowSkip([c] + rest, rest);
  }

  function Decs(pixels: seq<Pixel>): (ts: seq<string>)
    ensures |ts| == |pixels| && forall i :: 0 <= i < |ts| ==> ts[i] == Dec(pixels[i])
  {
    seq(|pixels|, i requires 0 <= i < |pixels| => Dec(pixels[i]))
  }

  lemma {:induction false} TokensOfRow(row: seq<Pixel>, rest: string)
    requires Ends(rest)
    ensures Tokens(RowText(row) + rest) == Prepend(Decs(row), Tokens(rest))
  {
    hide Tokens;
    if row == [] {
      assert RowText(row) + rest == rest;
      PrependNothing(Tokens(rest));
    } else {
      var n := |row| - 1;
      var blank := if n == 0 then "" else " ";
      var front := row[..n];
      TokensOfSample(row[n], blank, rest);
      RowTextStep(row, n);
      assert row[..n + 1] == row;
      assert RowText(row) + rest == RowText(front) + (blank + Dec(row[n]) + rest);
      if n == 0 {
        assert RowText(row) + rest == blank + Dec(row[n]) + rest;
        assert Decs(row) == [Dec(row[n])];
      } else {
        TokensOfRow(front, blank + Dec(row[n]) + rest);
        PrependTwice(Decs(front), [Dec(row[n])], Tokens(rest));
        assert Decs(row) == Decs(front) + [Dec(row[n])];
      }
    }
  }

  lemma TokensOfSample(value: Pixel, blank: string, rest: string)
    requires Ends(rest) && (blank == "" || blank == " ")
    ensures Tokens(blank + Dec(value) + rest) == Prepend([Dec(value)], Tokens(rest))
  {
    hide Tokens, Dec;
    var word := Dec(value) + rest;
    TokensOfNumber(value, rest);
    if blank == " " {
      TokensAfterSpace(' ', word);
      assert blank + Dec(value) + rest == [' '] + word;
    } else {
      assert blank + Dec(value) + rest == word;
    }
  }

  lemma DecsOfRows(image: Image, y: nat)
    requires image.Valid() && y < image.height
    ensures 0 <= y * image.width <= (y + 1) * image.width <= |image.pixels|
    ensures Decs(image.pixels[..(y + 1) * image.width]) == Decs(image.pixels[..y * image.width]) + Decs(Row(image, y))
  {
    RowBounds(y, image.height, image.width);
    assert image.pixels[..(y + 1) * image.width] == image.pixels[..y * image.width] + Row(image, y);
  }

  lemma TokensOfLine(row: seq<Pixel>, rest: string)
    ensures Tokens(RowText(row) + "\n" + rest) == Prepend(Decs(row), Tokens(rest))
  {
    TokensAfterSpace('\n', rest);
    TokensOfRow(row, "\n" + rest);
    assert RowText(row) + "\n" + rest == RowText(row) + ("\n" + rest);
  }

  lemma {:induction false} TokensOfRows(image: Image, count: nat, rest: string)
    requires image.Valid() && count <= image.height
    ensures 0 <= count * image.width <= |image.pixels|
    ensures Tokens(RowsText(image, count) + rest) == Prepend(Decs(image.pixels[..count * image.width]), Tokens(rest))
  {
    hide Tokens, RowText, Decs;
    if count == 0 {
      assert RowsText(image, 0) + rest == rest;
      assert Decs(image.pixels[..0]) == [];
      PrependNothing(Tokens(rest));
    } else {
      var y := count - 1;
      var text := RowText(Row(image, y));
      TokensOfLine(Row(image, y), rest);
      TokensOfRows(image, y, text + "\n" + rest);
      assert RowsText(image, count) + rest == RowsText(image, y) + (text + "\n" + rest);
      PrependTwice(Decs(image.pixels[..y * image.width]), Decs(Row(image, y)), Tokens(rest));
      DecsOfRows(image, y);
    }
  }

  lemma {:induction false} SamplesOfDecs(pixels: seq<Pixel>)
    ensures Samples(Decs(pixels)) == Ok(pixels)
  {
    if pixels != [] {
      SamplesOfDecs(pixels[1..]);
      ParseU32OfDec(pixels[0], "PGM value");
      assert Decs(pixels)[1..] == Decs(pixels[1..]);
      assert pixels == [pixels[0]] + pixels[1..];
    } else {
      assert Decs(pixels) == [];
    }
  }

  lemma TokensOfWordThen(word: string, sep: char, rest: string)
    requires word != "" && GoodToken(word) && IsSpace(sep)
    requires forall i :: 0 <= i < |word| ==> !IsSeparator(word[i])
    ensures Tokens(word + [sep] + rest) == Prepend([word], Tokens(rest))
  {
    hide Tokens;
    TokensOfWord(word, [sep] + rest);
    TokensAfterSpace(sep, rest);
    assert word + [sep] + rest == word + ([sep] + rest);
  }

  lemma TokensOfNumberThen(n: U32, sep: char, rest: string)
    requires IsSpace(sep)
    ensures Tokens(Dec(n) + [sep] + rest) == Prepend([Dec(n)], Tokens(rest))
  {
    hide Tokens, Dec;
    TokensOfNumber(n, [sep] + rest);
    TokensAfterSpace(sep, rest);
    assert Dec(n) + [sep] + rest == Dec(n) + ([sep] + rest);
  }

  lemma TokensOfHeader(width: U32, height: U32, rest: string)
    ensures Tokens(HeaderThen(width, height, rest)) == Prepend(["P2", Dec(width), Dec(height), "255"], Tokens(rest))
  {
    hide Tokens, Dec, PgmComment;
    var t3 := "255" + "\n" + rest;
    TokensOfWordThen("255", '\n', rest);
    var t2 := Dec(height) + "\n" + t3;
    TokensOfNumberThen(height, '\n', t3);
    var t1 := Dec(width) + " " + t2;
    TokensOfNumberThen(width, ' ', t2);
    TokensAfterComment(t1);
    TokensOfWordThen("P2", '\n', "#" + PgmComment() + "\n" + t1);
    var w, h, m, p := Dec(width), Dec(height), "255", "P2";
    assert [h] + [m] == [h, m] && [w] + [h, m] == [w, h, m] && [p] + [w, h, m] == [p, w, h, m];
    PrependTwice([h], [m], Tokens(rest));
    PrependTwice([w], [h, m], Tokens(rest));
    PrependTwice([p], [w, h, m], Tokens(rest));
  }

  lemma {:induction false} CommentEnds(comment: string, rest: string)
    requires '\n' !in comment
    ensures AfterComment(comment + "\n" + rest) == "\n" + rest
  {
    if comment == "" {
      assert comment + "\n" + rest == "\n" + rest;
    } else {
      CommentEnds(comment[1..], rest);
      assert (comment + "\n" + rest)[1..] == comment[1..] + "\n" + rest;
    }
  }

  lemma CommentIsOneLine()
    ensures '\n' !in PgmComment()
  {
  }

  lemma TokensAfterComment(rest: string)
    ensures Tokens("#" + PgmComment() + "\n" + rest) == Tokens(rest)
  {
    hide Tokens, PgmComment;
    CommentIsOneLine();
    var s := "#" + PgmComment() + "\n" + rest;
    CommentEnds(PgmComment(), rest);
    assert s[1..] == PgmComment() + "\n" + rest;
    var n := 1 + |PgmComment()|;
    assert s[n..] == "\n" + rest;
    SkippedComment(s, n);
    TokensAfterSpace('\n', rest);
  }

  lemma TokensOfPgmText(image: Image)
    requires image.Valid() && image.width <= U32_MAX && image.height <= U32_MAX
    ensures Tokens(PgmText(image)) == Ok(["P2", Dec(image.width), Dec(image.height), "255"] + Decs(image.pixels))
  {
    hide Tokens, Dec, HeaderThen, RowsText, Decs;
    var rows := RowsText(image, image.height);
    TokensOfHeader(image.width, image.height, rows);
    TokensOfRows(image, image.height, "");
    assert rows + "" == rows && image.pixels[..image.height * image.width] == image.pixels;
    TokensOfNothing();
    assert Decs(image.pixels) + [] == Decs(image.pixels);
  }

  lemma DecOf255()
    ensures ParseU32("255", "PGM value") == Ok(255)
  {
    ParseU32OfDec(255, "PGM value");
    assert Dec(255) == "255" by { assert Dec(25) == "25" by { assert Dec(2) == "2"; } }
  }

  /** Reading back a printed derivative gives its size and its very pixels. */
  lemma PgmRoundTrip(image: Image)
    requires image.Valid() && image.width <= U32_MAX && image.height <= U32_MAX
    requires EncodePgm(image).Ok?
    ensures DecodePgm(EncodePgm(image).value, image.width, image.height) == Ok(image.pixels)
  {
    hide Tokens, Dec, PgmText, Samples, Decs, ParseU32;
    var text := PgmText(image);
    TokensOfPgmText(image);
    TokenGuardIsUnreachable(text);
    TokenCount(text);
    ParseU32OfDec(image.width, "PGM value");
    ParseU32OfDec(image.height, "PGM value");
    DecOf255();
    SamplesOfDecs(image.pixels);
    var tokens := Tokens(text).value;
    assert tokens[4..] == Decs(image.pixels);
  }
}
