/** The preview decoder of the desktop shell: it pulls tokens through a cursor,
    and it accepts everything that the session engine accepts. */
module GuiPgm {
  import opened Arith
  import opened Text
  import opened Pgm

  predicate IsCSpace(c: char) {
    c == ' ' || 9 as char <= c <= 13 as char
  }

  function SkipCSpace(s: string): (r: string)
    ensures |r| <= |s|
  {
    if s != "" && IsCSpace(s[0]) then SkipCSpace(s[1..]) else s
  }

  /** std::stoul with a 32-bit unsigned long: white space, a sign, a digit prefix;
      what follows the digits is ignored and a minus sign negates modulo 2^32. */
  function Stoul(text: string): Option<U32> {
    var s := SkipCSpace(text);
    var signed := s != "" && (s[0] == '+' || s[0] == '-');
    var digits := if signed then s[1..] else s;
    var n := DigitRun(digits);
    var value := Value(digits[..n]);
    if n == 0 || value > U32_MAX then None
    else if signed && s[0] == '-' then Some((U32_MAX + 1 - value) % (U32_MAX + 1))
    else Some(value)
  }

  /** The next token and what follows it. */
  function Pull(s: string): (Option<string>, string) {
    var t := Skip(s);
    if t == "" then (None, "")
    else var n := WordLength(t); (Some(t[..n]), t[n..])
  }

  /** The skipping loop of next_pgm_token. */
  method SkipBlanks(text: string, cursor: nat) returns (next: nat)
    requires cursor <= |text|
    ensures cursor <= next <= |text| && text[next..] == Skip(text[cursor..])
  {
    next := cursor;
    while next < |text|
      invariant cursor <= next <= |text|
      invariant Skip(text[cursor..]) == Skip(text[next..])
    {
      var value := text[next];
      ghost var rest := text[next..];
      if value == '#' {
        next := next + 1;
        assert rest[1..] == text[next..];
        while next < |text| && text[next] != '\n'
          invariant cursor < next <= |text|
          invariant AfterComment(rest[1..]) == AfterComment(text[next..])
        {
          assert text[next..][1..] == text[next + 1..];
          next := next + 1;
        }
      } else if IsSpace(value) {
        next := next + 1;
        assert rest[1..] == text[next..];
      } else {
        break;
      }
    }
  }

  /** next_pgm_token: moves the cursor past one token. */
  method NextToken(text: string, cursor: nat) returns (token: Option<string>, next: nat)
    requires cursor <= |text|
    ensures cursor <= next <= |text|
    ensures (token, text[next..]) == Pull(text[cursor..])
  {
    hide Skip, WordLength;
    next := SkipBlanks(text, cursor);
    if next >= |text| {
      return None, next;
    }
    var start := next;
    ghost var word := text[start..];
    while next < |text|
      invariant start <= next <= |text|
      invariant forall i :: start <= i < next ==> !IsSeparator(text[i])
    {
      if IsSeparator(text[next]) {
        break;
      }
      next := next + 1;
    }
    WordLengthIs(word, next - start);
    assert word[..next - start] == text[start..next] && word[next - start..] == text[next..];
    token := Some(text[start..next]);
  }

  /** `count` samples scaled from 0..maximum to 0..255. */
  function PullSamples(s: string, count: nat, maximum: nat): (r: Option<seq<Pixel>>)
    requires 0 < maximum <= 65535
    ensures r.Some? ==> |r.value| == count
    decreases count
  {
    if count == 0 then Some([])
    else
      var (token, rest) := Pull(s);
      if token.None? || Stoul(token.value).None? then None
      else
        var sample := Stoul(token.value).value;
        if sample > maximum then None
        else
          var more := PullSamples(rest, count - 1, maximum);
          if more.None? then None else Some([Scaled(sample, maximum)] + more.value)
  }

  /** sample * 255 stays far below 2^32, so the product never wraps. */
  function Scaled(sample: nat, maximum: nat): Pixel
    requires 0 < maximum <= 65535 && sample <= maximum
  {
    ScaledBound(sample, maximum);
    sample * 255 / maximum
  }

  function GuiDecode(text: string): Option<Image> {
    var (magic, t1) := Pull(text);
    var (width, t2) := Pull(t1);
    var (height, t3) := Pull(t2);
    var (maximum, t4) := Pull(t3);
    if magic != Some("P2") || width.None? || height.None? || maximum.None? then None
    else
      var w, h, m := Stoul(width.value), Stoul(height.value), Stoul(maximum.value);
      if w.None? || h.None? || m.None? then None else Picture(w.value, h.value, m.value, t4)
  }

  function Picture(width: U32, height: U32, maximum: U32, rest: string): Option<Image> {
    if width == 0 || height == 0 || maximum == 0 || maximum > 65535 then None
    else
      var pixels := PullSamples(rest, width as int * height as int, maximum);
      if pixels.None? then None else Some(Image(width, height, pixels.value))
  }

  lemma PullSamplesStep(front: seq<Pixel>, s: string, count: nat, maximum: nat)
    requires 0 < maximum <= 65535 && count > 0
    requires Pull(s).0.Some? && Stoul(Pull(s).0.value).Some? && Stoul(Pull(s).0.value).value <= maximum
    ensures Ahead(front, PullSamples(s, count, maximum))
            == Ahead(front + [Scaled(Stoul(Pull(s).0.value).value, maximum)], PullSamples(Pull(s).1, count - 1, maximum))
  {
    var more := PullSamples(Pull(s).1, count - 1, maximum);
    if more.Some? {
      var sample := Scaled(Stoul(Pull(s).0.value).value, maximum);
      assert front + ([sample] + more.value) == front + [sample] + more.value;
    }
  }

  function Ahead(front: seq<Pixel>, r: Option<seq<Pixel>>): Option<seq<Pixel>> {
    if r.None? then None else Some(front + r.value)
  }

  /** decode_pgm of the shell. */
  method DecodePreview(text: string) returns (r: Option<Image>)
    ensures r == GuiDecode(text)
  {
    hide Skip, Stoul, Pull;
    var cursor := 0;
    assert text[0..] == text;
    var magic, width, height, maximum;
    magic, cursor := NextToken(text, cursor);
    width, cursor := NextToken(text, cursor);
    height, cursor := NextToken(text, cursor);
    maximum, cursor := NextToken(text, cursor);
    if magic != Some("P2") || width.None? || height.None? || maximum.None? {
      return None;
    }
    var w, h, m := Stoul(width.value), Stoul(height.value), Stoul(maximum.value);
    if w.None? || h.None? || m.None? {
      return None;
    }
    if w.value == 0 || h.value == 0 || m.value == 0 || m.value > 65535 {
      return None;
    }
    var count: nat := w.value as int * h.value as int;
    var pixels := ReadSamples(text, cursor, count, m.value);
    return if pixels.None? then None else Some(Image(w.value, h.value, pixels.value));
  }

  /** The sample loop of the shell's decode_pgm. */
  method ReadSamples(text: string, from: nat, count: nat, maximum: nat) returns (r: Option<seq<Pixel>>)
    requires from <= |text| && 0 < maximum <= 65535
    ensures r == PullSamples(text[from..], count, maximum)
  {
    hide Skip, Stoul, Pull;
    var pixels: seq<Pixel> := [];
    var cursor: nat := from;
    ghost var all := PullSamples(text[from..], count, maximum);
    assert all.Some? ==> [] + all.value == all.value;
    var index := 0;
    while index < count
      invariant 0 <= index <= count && cursor <= |text|
      invariant all == Ahead(pixels, PullSamples(text[cursor..], count - index, maximum))
    {
      var token, next := NextToken(text, cursor);
      if token.None? {
        return None;
      }
      var sample := Stoul(token.value);
      if sample.None? || sample.value > maximum {
        return None;
      }
      PullSamplesStep(pixels, text[cursor..], count - index, maximum);
      pixels := pixels + [Scaled(sample.value, maximum)];
      cursor := next;
      index := index + 1;
    }
    assert pixels + [] == pixels;
    return Some(pixels);
  }

  // -------------------------------------------------------------- refinement

  /** Pulling one token from a text takes the first of all its tokens. */
  lemma PullIsFirstToken(s: string)
    requires Tokens(s).Ok? && Tokens(s).value != []
    ensures Pull(s).0 == Some(Tokens(s).value[0])
    ensures Tokens(Pull(s).1) == Ok(Tokens(s).value[1..])
  {
    var t := Skip(s);
    var n := WordLength(t);
    assert Tokens(s) == Prepend([t[..n]], Tokens(t[n..]));
  }

  /** Where from_chars accepts a token, stoul yields the same number. */
  lemma StoulAgrees(token: string, field: string)
    requires ParseU32(token, field).Ok?
    ensures Stoul(token) == Some(ParseU32(token, field).value)
  {
    assert IsDigit(token[0]);
    assert token == token + "";
    DigitRunLength(token, "", token);
    assert token[..|token|] == token;
  }

  lemma {:induction false} SamplesAgree(s: string, count: nat)
    requires Tokens(s).Ok? && |Tokens(s).value| >= count && Samples(Tokens(s).value[..count]).Ok?
    ensures PullSamples(s, count, 255) == Some(Samples(Tokens(s).value[..count]).value)
    decreases count
  {
    hide Tokens, Pull, Stoul, ParseU32;
    if count > 0 {
      var tokens := Tokens(s).value;
      PullIsFirstToken(s);
      StoulAgrees(tokens[0], "PGM value");
      assert tokens[..count][1..] == tokens[1..][..count - 1];
      SamplesAgree(Pull(s).1, count - 1);
    }
  }

  /** The shell decodes every text whose tokens start as a plain PGM; further tokens are ignored. */
  lemma GuiReadsTokens(text: string, tokens: seq<string>, width: U32, height: U32)
    requires Tokens(text) == Ok(tokens) && width > 0 && height > 0
    requires |tokens| >= 4 + width as int * height as int && tokens[0] == "P2"
    requires ParseU32(tokens[1], "PGM value") == Ok(width) && ParseU32(tokens[2], "PGM value") == Ok(height)
    requires ParseU32(tokens[3], "PGM value") == Ok(255)
    requires Samples(tokens[4..4 + width as int * height as int]).Ok?
    ensures GuiDecode(text)
            == Some(Image(width, height, Samples(tokens[4..4 + width as int * height as int]).value))
  {
    hide Tokens, Pull, Samples, PullSamples, ParseU32, Stoul;
    var t1 := Pull(text).1;
    PullIsFirstToken(text);
    var t2 := Pull(t1).1;
    PullIsFirstToken(t1);
    var t3 := Pull(t2).1;
    PullIsFirstToken(t2);
    PullIsFirstToken(t3);
    assert tokens[1..][1..][1..][1..] == tokens[4..];
    StoulAgrees(tokens[1], "PGM value");
    StoulAgrees(tokens[2], "PGM value");
    StoulAgrees(tokens[3], "PGM value");
    var count: nat := width as int * height as int;
    assert tokens[4..][..count] == tokens[4..4 + count];
    SamplesAgree(Pull(t3).1, count);
  }

  /** Whatever the session engine decodes, the shell decodes to the same picture. */
  lemma GuiRefinesCore(bytes: string, width: U32, height: U32)
    requires DecodePgm(bytes, width, height).Ok? && width > 0 && height > 0
    ensures GuiDecode(bytes) == Some(Image(width, height, DecodePgm(bytes, width, height).value))
  {
    hide Tokens, Samples, ParseU32, GuiDecode;
    var tokens := Tokens(bytes).value;
    assert tokens[4..4 + width as int * height as int] == tokens[4..];
    GuiReadsTokens(bytes, tokens, width, height);
  }

  /** The converse fails: the shell takes a picture with one token too many, which the engine refuses. */
  lemma GuiAcceptsMore(value: Pixel, extra: U32)
    ensures var text := HeaderThen(1, 1, Dec(value) + " " + (Dec(extra) + " " + ""));
            GuiDecode(text) == Some(Image(1, 1, [value])) && DecodePgm(text, 1, 1) == Err(PGM_MISMATCH)
  {
    hide Tokens, HeaderThen, GuiDecode, Dec, ParseU32;
    var rest := Dec(value) + " " + (Dec(extra) + " " + "");
    var text := HeaderThen(1, 1, rest);
    TokensOfHeader(1, 1, rest);
    TokensOfNumberThen(value, ' ', Dec(extra) + " " + "");
    TokensOfNumberThen(extra, ' ', "");
    TokensOfNothing();
    var tokens := ["P2", Dec(1), Dec(1), "255", Dec(value), Dec(extra)];
    assert [Dec(value)] + [Dec(extra)] == [Dec(value), Dec(extra)];
    assert ["P2", Dec(1), Dec(1), "255"] + [Dec(value), Dec(extra)] == tokens;
    assert [Dec(extra)] + [] == [Dec(extra)];
    assert Tokens(rest) == Ok([Dec(value), Dec(extra)]);
    ParseU32OfDec(1, "PGM value");
    ParseU32OfDec(value, "PGM value");
    DecOf255();
    assert tokens[4..5] == [Dec(value)];
    assert Samples([Dec(value)]) == Ok([value]) by {
      assert [Dec(value)][1..] == [] && [value] + [] == [value];
      assert Samples([]) == Ok([]);
    }
    GuiReadsTokens(text, tokens, 1, 1);
  }

  // ------------------------------------------------ when the engine agrees

  /** A token that from_chars reads as a whole. */
  predicate IsDecimal(token: string) {
    token != "" && AllDigits(token) && Value(token) <= U32_MAX
  }

  lemma DecimalIff(token: string)
    ensures ParseU32(token, "PGM value").Ok? <==> IsDecimal(token)
    ensures IsDecimal(token) ==> ParseU32(token, "PGM value") == Ok(Value(token)) && Stoul(token) == Some(Value(token))
  {
    if IsDecimal(token) {
      StoulAgrees(token, "PGM value");
    }
  }

  /** Samples that are plain numbers up to 255. */
  predicate PlainSamples(tokens: seq<string>) {
    forall i :: 0 <= i < |tokens| ==> IsDecimal(tokens[i]) && Value(tokens[i]) <= 255
  }

  /** Exactly a header and `count` samples, all plain numbers, with maximum 255, and not too many of them. */
  predicate PlainPgm(bytes: string, count: nat) {
    Tokens(bytes).Ok?
    && var tokens := Tokens(bytes).value;
       |tokens| == 4 + count && |tokens| <= MAX_TOKENS
       && IsDecimal(tokens[1]) && IsDecimal(tokens[2]) && IsDecimal(tokens[3]) && Value(tokens[3]) == 255
       && PlainSamples(tokens[4..])
  }

  lemma {:induction false} SamplesOkIff(tokens: seq<string>)
    ensures Samples(tokens).Ok? <==> PlainSamples(tokens)
  {
    hide IsDecimal, ParseU32, Stoul;
    if tokens != [] {
      DecimalIff(tokens[0]);
      SamplesOkIff(tokens[1..]);
      assert forall i :: 0 < i < |tokens| ==> tokens[i] == tokens[1..][i - 1];
      assert forall i :: 0 <= i < |tokens| - 1 ==> tokens[1..][i] == tokens[i + 1];
    }
  }

  /** What the sample loop of the shell makes of tokens. */
  function ShellSamples(tokens: seq<string>, maximum: nat): Option<seq<Pixel>>
    requires 0 < maximum <= 65535
  {
    if tokens == [] then Some([])
    else if Stoul(tokens[0]).None? || Stoul(tokens[0]).value > maximum then None
    else
      var more := ShellSamples(tokens[1..], maximum);
      if more.None? then None else Some([Scaled(Stoul(tokens[0]).value, maximum)] + more.value)
  }

  lemma {:induction false} PullSamplesOfTokens(s: string, count: nat, maximum: nat)
    requires Tokens(s).Ok? && |Tokens(s).value| >= count && 0 < maximum <= 65535
    ensures PullSamples(s, count, maximum) == ShellSamples(Tokens(s).value[..count], maximum)
    decreases count
  {
    hide Tokens, Pull, Stoul, Scaled;
    if count > 0 {
      var tokens := Tokens(s).value;
      PullIsFirstToken(s);
      assert tokens[..count][1..] == tokens[1..][..count - 1];
      PullSamplesOfTokens(Pull(s).1, count - 1, maximum);
    }
  }

  /** The picture that the shell makes of the tokens of a text, as far as it looks. */
  function ShellPicture(tokens: seq<string>): Option<Image>
    requires |tokens| >= 4
  {
    var w, h, m := Stoul(tokens[1]), Stoul(tokens[2]), Stoul(tokens[3]);
    if tokens[0] != "P2" || w.None? || h.None? || m.None? then None
    else if w.value == 0 || h.value == 0 || m.value == 0 || m.value > 65535 then None
    else if |tokens| < 4 + w.value as int * h.value as int then None
    else
      var pixels := ShellSamples(tokens[4..4 + w.value as int * h.value as int], m.value);
      if pixels.None? then None else Some(Image(w.value, h.value, pixels.value))
  }

  lemma FirstFourTokens(text: string)
    requires Tokens(text).Ok? && |Tokens(text).value| >= 4
    ensures var (magic, t1) := Pull(text);
            var (width, t2) := Pull(t1);
            var (height, t3) := Pull(t2);
            var (maximum, t4) := Pull(t3);
            var tokens := Tokens(text).value;
            magic == Some(tokens[0]) && width == Some(tokens[1]) && height == Some(tokens[2]) && maximum == Some(tokens[3])
            && Tokens(t4) == Ok(tokens[4..])
  {
    hide Tokens, Pull;
    var tokens := Tokens(text).value;
    PullIsFirstToken(text);
    PullIsFirstToken(Pull(text).1);
    PullIsFirstToken(Pull(Pull(text).1).1);
    PullIsFirstToken(Pull(Pull(Pull(text).1).1).1);
    assert tokens[1..][1..][1..][1..] == tokens[4..];
  }

  lemma {:induction false} TooFewTokens(s: string, count: nat, maximum: nat)
    requires Tokens(s).Ok? && |Tokens(s).value| < count && 0 < maximum <= 65535
    ensures PullSamples(s, count, maximum) == None
    decreases count
  {
    hide Stoul, Scaled;
    if Tokens(s).value == [] {
      assert Skip(s) == "";
    } else {
      PullIsFirstToken(s);
      TooFewTokens(Pull(s).1, count - 1, maximum);
    }
  }

  /** The shell decodes a text exactly as its tokens say. */
  lemma ShellDecodesTokens(text: string)
    requires Tokens(text).Ok? && |Tokens(text).value| >= 4
    ensures GuiDecode(text) == ShellPicture(Tokens(text).value)
  {
    hide Tokens, Pull, Stoul, ShellSamples, PullSamples;
    var tokens := Tokens(text).value;
    FirstFourTokens(text);
    var t4 := Pull(Pull(Pull(Pull(text).1).1).1).1;
    var w, h, m := Stoul(tokens[1]), Stoul(tokens[2]), Stoul(tokens[3]);
    if w.Some? && h.Some? && m.Some? && 0 < m.value <= 65535 {
      var count: nat := w.value as int * h.value as int;
      if |tokens| >= 4 + count {
        assert tokens[4..][..count] == tokens[4..4 + count];
        PullSamplesOfTokens(t4, count, m.value);
      } else {
        TooFewTokens(t4, count, m.value);
      }
    }
  }

  /** For every byte string: the engine decodes what the shell shows exactly if it is a plain PGM with nothing more in it,
      all numbers plain decimals and maximum 255; and then both give the same picture. */
  lemma EngineAgreesIff(bytes: string, image: Image)
    requires GuiDecode(bytes) == Some(image)
    ensures 0 < image.width <= U32_MAX && 0 < image.height <= U32_MAX
    ensures DecodePgm(bytes, image.width, image.height) == Ok(image.pixels) <==> PlainPgm(bytes, image.width * image.height)
    ensures DecodePgm(bytes, image.width, image.height).Ok? ==>
              DecodePgm(bytes, image.width, image.height) == Ok(image.pixels)
  {
    hide Tokens, Pull, Stoul, Samples, ShellSamples, PullSamples, ParseU32, PlainSamples, IsDecimal;
    SizeIsU32(bytes);
    if DecodePgm(bytes, image.width, image.height).Ok? {
      GuiRefinesCore(bytes, image.width, image.height);
      DecodedIsPlain(bytes, image.width, image.height);
    }
    if PlainPgm(bytes, image.width * image.height) {
      PlainIsDecoded(bytes, image);
      GuiRefinesCore(bytes, image.width, image.height);
    }
  }

  lemma SizeIsU32(bytes: string)
    requires GuiDecode(bytes).Some?
    ensures 0 < GuiDecode(bytes).value.width <= U32_MAX && 0 < GuiDecode(bytes).value.height <= U32_MAX
  {
    hide Pull, Stoul, PullSamples;
  }

  lemma DecodedIsPlain(bytes: string, width: U32, height: U32)
    requires DecodePgm(bytes, width, height).Ok?
    ensures PlainPgm(bytes, width * height)
  {
    hide Tokens, Stoul, Samples, ParseU32, PlainSamples, IsDecimal;
    var tokens := Tokens(bytes).value;
    DecimalIff(tokens[1]);
    DecimalIff(tokens[2]);
    DecimalIff(tokens[3]);
    SamplesOkIff(tokens[4..]);
  }

  lemma PlainIsDecoded(bytes: string, image: Image)
    requires GuiDecode(bytes) == Some(image) && PlainPgm(bytes, image.width * image.height)
    requires image.width <= U32_MAX && image.height <= U32_MAX
    ensures DecodePgm(bytes, image.width, image.height).Ok?
  {
    hide Tokens, Stoul, Samples, ShellSamples, ParseU32, PlainSamples, IsDecimal, GuiDecode;
    var tokens := Tokens(bytes).value;
    ShellDecodesTokens(bytes);
    DecimalIff(tokens[1]);
    DecimalIff(tokens[2]);
    DecimalIff(tokens[3]);
    SamplesOkIff(tokens[4..]);
  }

  // ------------------------------------------------ pictures only the shell shows

  /** One pixel, with its four numbers as written. */
  function OnePixel(width: string, height: string, maximum: string, sample: string): string {
    "P2" + " " + (width + " " + (height + " " + (maximum + " " + (sample + " " + ""))))
  }

  predicate Word(token: string) {
    token != "" && GoodToken(token) && forall i :: 0 <= i < |token| ==> !IsSeparator(token[i])
  }

  lemma TokensOfOnePixel(width: string, height: string, maximum: string, sample: string)
    requires Word(width) && Word(height) && Word(maximum) && Word(sample)
    ensures Tokens(OnePixel(width, height, maximum, sample)) == Ok(["P2", width, height, maximum, sample])
  {
    hide Tokens, GoodToken, IsSeparator;
    PIsWord();
    TokensOfNothing();
    TokensOfWordThen(sample, ' ', "");
    var t4 := sample + " " + "";
    TokensOfWordThen(maximum, ' ', t4);
    var t3 := maximum + " " + t4;
    TokensOfWordThen(height, ' ', t3);
    var t2 := height + " " + t3;
    TokensOfWordThen(width, ' ', t2);
    TokensOfWordThen("P2", ' ', width + " " + t2);
    assert [sample] + [] == [sample] && [maximum] + [sample] == [maximum, sample];
    assert [height] + [maximum, sample] == [height, maximum, sample];
    assert [width] + [height, maximum, sample] == [width, height, maximum, sample];
    assert ["P2"] + [width, height, maximum, sample] == ["P2", width, height, maximum, sample];
  }

  lemma PIsWord()
    ensures Word("P2")
  {
  }

  /** The shell shows one pixel for any numbers that stoul makes 1, 1, a maximum and a sample of; the engine does so only
      if they are plain decimals and the maximum is 255. */
  lemma OnePixelIsShown(width: string, height: string, maximum: string, sample: string)
    requires Word(width) && Word(height) && Word(maximum) && Word(sample)
    requires Stoul(width) == Some(1) && Stoul(height) == Some(1)
    requires Stoul(maximum).Some? && 0 < Stoul(maximum).value <= 65535
    requires Stoul(sample).Some? && Stoul(sample).value <= Stoul(maximum).value
    ensures var text := OnePixel(width, height, maximum, sample);
            GuiDecode(text) == Some(Image(1, 1, [Scaled(Stoul(sample).value, Stoul(maximum).value)]))
            && (DecodePgm(text, 1, 1).Ok?
                <==> IsDecimal(width) && IsDecimal(height) && IsDecimal(maximum) && Value(maximum) == 255
                     && IsDecimal(sample) && Value(sample) <= 255)
  {
    hide Tokens, Stoul, IsDecimal, GuiDecode, OnePixel, Word, DecodePgm;
    var text := OnePixel(width, height, maximum, sample);
    TokensOfOnePixel(width, height, maximum, sample);
    ShellDecodesTokens(text);
    var tokens := ["P2", width, height, maximum, sample];
    assert tokens[4..5] == [sample] && tokens[4..] == [sample] && [sample][1..] == [];
    var pixel := Scaled(Stoul(sample).value, Stoul(maximum).value);
    assert ShellSamples([], Stoul(maximum).value) == Some([]) && [pixel] + [] == [pixel];
    EngineAgreesIff(text, Image(1, 1, [pixel]));
  }

  /** stoul skips a plus sign and ignores what follows the digits. */
  lemma StoulOfPrefix(sign: string, n: U32, rest: string)
    requires sign == "" || sign == "+"
    requires rest == "" || !IsDigit(rest[0])
    ensures Stoul(sign + (Dec(n) + rest)) == Some(n)
  {
    hide Dec, Value;
    var digits, text := Dec(n) + rest, sign + (Dec(n) + rest);
    assert IsDigit(Dec(n)[0]);
    assert text[|sign|..] == digits && digits[..|Dec(n)|] == Dec(n);
    DigitRunLength(Dec(n), rest, digits);
    ValueOfDec(n);
    assert text[0] == if sign == "" then Dec(n)[0] else '+';
    assert SkipCSpace(text) == text;
    assert sign == "+" ==> text[1..] == digits;
    assert sign == "" ==> text == digits;
  }

  lemma LooseWord(sign: string, n: U32, rest: string)
    requires (sign == "" || sign == "+") && (rest == "" || rest == "x")
    ensures Word(sign + (Dec(n) + rest))
    ensures sign + rest != "" ==> !IsDecimal(sign + (Dec(n) + rest))
  {
    hide Dec, Value;
    DecLength(n, 10);
    assert Pow10(10) == 10_000_000_000;
    var text, k := sign + (Dec(n) + rest), |sign|;
    forall i | 0 <= i < |text| ensures !IsSeparator(text[i]) && 0x21 as char <= text[i] <= 0x7e as char {
      assert k <= i < k + |Dec(n)| ==> text[i] == Dec(n)[i - k] && IsDigit(Dec(n)[i - k]);
      assert i >= k + |Dec(n)| ==> text[i] == 'x';
    }
    assert sign == "+" ==> text[0] == '+' && !IsDigit(text[0]);
    assert rest == "x" ==> text[|text| - 1] == 'x' && !IsDigit(text[|text| - 1]);
  }

  /** A maximum other than 255, and signs or trailing garbage in any place: each is shown by the shell and refused by the
      engine. */
  lemma ShellIsLooser(sign: string, rest: string, maximum: U32, value: U32)
    requires (sign == "" || sign == "+") && (rest == "" || rest == "x")
    requires 0 < maximum <= 65535 && value <= maximum
    requires maximum != 255 || sign + rest != ""
    ensures var text := OnePixel(sign + (Dec(1) + rest), sign + (Dec(1) + rest), sign + (Dec(maximum) + rest),
                                 sign + (Dec(value) + rest));
            GuiDecode(text) == Some(Image(1, 1, [Scaled(value, maximum)])) && DecodePgm(text, 1, 1).Err?
  {
    hide Stoul, GuiDecode, DecodePgm, OnePixel, IsDecimal, Word, Dec, Value;
    StoulOfPrefix(sign, 1, rest);
    StoulOfPrefix(sign, maximum, rest);
    StoulOfPrefix(sign, value, rest);
    LooseWord(sign, 1, rest);
    LooseWord(sign, maximum, rest);
    LooseWord(sign, value, rest);
    if sign + rest == "" {
      ValueOfDec(maximum);
      assert sign + (Dec(maximum) + rest) == Dec(maximum);
    }
    OnePixelIsShown(sign + (Dec(1) + rest), sign + (Dec(1) + rest), sign + (Dec(maximum) + rest),
                    sign + (Dec(value) + rest));
  }

  // ------------------------------------------------------ the shell's own pictures

  /** Scaling to 0..255 rounds down and keeps order, black and white. */
  lemma ScaledIs(sample: nat, more: nat, maximum: nat)
    requires 0 < maximum <= 65535 && sample <= more <= maximum
    ensures Scaled(sample, maximum) * maximum <= sample * 255 < (Scaled(sample, maximum) + 1) * maximum
    ensures Scaled(sample, maximum) <= Scaled(more, maximum)
    ensures Scaled(0, maximum) == 0 && Scaled(maximum, maximum) == 255
  {
    FlooredBy(sample * 255, maximum);
    FlooredBy(more * 255, maximum);
    FlooredBy(maximum * 255, maximum);
    var a, b := Scaled(sample, maximum), Scaled(more, maximum);
    if a > b {
      MulMonotone(b + 1, a, maximum);
    }
    var white := Scaled(maximum, maximum);
    if white < 255 {
      MulMonotone(white + 1, 255, maximum);
    }
  }

  lemma FlooredBy(n: nat, d: nat)
    requires d > 0
    ensures n / d * d <= n < (n / d + 1) * d
  {
    assert n == n / d * d + n % d;
  }

  lemma {:induction false} BlanksAreSkipped(blanks: string, s: string)
    requires forall i :: 0 <= i < |blanks| ==> blanks[i] == ' ' || 9 as char <= blanks[i] <= 13 as char
    requires s != "" && s[0] != ' ' && !(9 as char <= s[0] <= 13 as char)
    ensures SkipCSpace(blanks + s) == s
  {
    if blanks == "" {
      assert blanks + s == s;
    } else {
      assert (blanks + s)[1..] == blanks[1..] + s;
      assert forall i :: 0 <= i < |blanks| - 1 ==> blanks[1..][i] == blanks[i + 1];
      BlanksAreSkipped(blanks[1..], s);
    }
  }

  /** stoul skips blanks, takes a sign and digits up to 2^32 - 1 and ignores the rest; a minus sign counts down from 2^32. */
  lemma StoulIs(blanks: string, sign: string, digits: string, rest: string)
    requires forall i :: 0 <= i < |blanks| ==> blanks[i] == ' ' || 9 as char <= blanks[i] <= 13 as char
    requires (sign == "" || sign == "+" || sign == "-") && digits != "" && AllDigits(digits)
    requires rest == "" || !IsDigit(rest[0])
    ensures Stoul(blanks + (sign + (digits + rest)))
            == if Value(digits) > 0xffff_ffff then None
               else if sign == "-" && Value(digits) > 0 then Some(0x1_0000_0000 - Value(digits))
               else Some(Value(digits))
  {
    hide Value, SkipCSpace, DigitRun;
    var text := sign + (digits + rest);
    assert IsDigit(digits[0]);
    assert text[0] == if sign == "" then digits[0] else sign[0];
    BlanksAreSkipped(blanks, text);
    DigitRunLength(digits, rest, digits + rest);
    assert (digits + rest)[..|digits|] == digits;
    assert sign != "" ==> text[1..] == digits + rest;
    assert sign == "" ==> text == digits + rest;
  }

  lemma {:induction false} SampleAt(tokens: seq<string>, maximum: nat, k: nat)
    requires 0 < maximum <= 65535 && ShellSamples(tokens, maximum).Some? && k < |tokens|
    ensures |ShellSamples(tokens, maximum).value| == |tokens|
    ensures Stoul(tokens[k]).Some? && Stoul(tokens[k]).value <= maximum
    ensures ShellSamples(tokens, maximum).value[k] == Scaled(Stoul(tokens[k]).value, maximum)
    decreases k
  {
    hide Stoul, Scaled;
    SamplesLength(tokens, maximum);
    if k > 0 {
      SampleAt(tokens[1..], maximum, k - 1);
    }
  }

  /** Pixel k of a shown picture is the (k + 1)-th number behind the header, scaled from the stated maximum; the header states
      the size. */
  lemma ShownPixel(text: string, image: Image, k: nat)
    requires GuiDecode(text) == Some(image) && Tokens(text).Ok? && |Tokens(text).value| >= 4 && k < |image.pixels|
    ensures var tokens := Tokens(text).value;
            tokens[0] == "P2" && Stoul(tokens[1]) == Some(image.width) && Stoul(tokens[2]) == Some(image.height)
            && Stoul(tokens[3]).Some? && 0 < Stoul(tokens[3]).value <= 65535
            && |image.pixels| == image.width * image.height && 4 + k < |tokens|
            && Stoul(tokens[4 + k]).Some? && Stoul(tokens[4 + k]).value <= Stoul(tokens[3]).value
            && var sample, maximum := Stoul(tokens[4 + k]).value, Stoul(tokens[3]).value;
               image.pixels[k] * maximum <= sample * 255 < (image.pixels[k] + 1) * maximum
  {
    hide Tokens, Stoul, ShellSamples, GuiDecode, Scaled;
    var tokens := Tokens(text).value;
    ShellDecodesTokens(text);
    var count := Stoul(tokens[1]).value as int * Stoul(tokens[2]).value as int;
    var maximum := Stoul(tokens[3]).value;
    var samples := tokens[4..4 + count];
    SamplesLength(samples, maximum);
    SampleAt(samples, maximum, k);
    ScaledIs(Stoul(samples[k]).value, Stoul(samples[k]).value, maximum);
  }

  lemma {:induction false} SamplesLength(tokens: seq<string>, maximum: nat)
    requires 0 < maximum <= 65535 && ShellSamples(tokens, maximum).Some?
    ensures |ShellSamples(tokens, maximum).value| == |tokens|
  {
    hide Stoul, Scaled;
    if tokens != [] {
      SamplesLength(tokens[1..], maximum);
    }
  }
}
