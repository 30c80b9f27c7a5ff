/** The plain PGM texts that the session engine takes and writes, character by character. */
module PgmLaws {
  import opened Text
  import opened Pgm

  // --------------------------------------------------------------------- tokens

  /** Blanks in front of a text change nothing, */
  lemma BlankIsSkipped(c: char, text: string)
    requires c == ' ' || c == '\t' || c == '\r' || c == '\n'
    ensures Tokens([c] + text) == Tokens(text)
  {
    TokensAfterSpace(c, text);
  }

  /** nor does a comment up to the end of its line, */
  lemma CommentIsSkipped(comment: string, text: string)
    requires '\n' !in comment && (text == "" || text[0] == '\n')
    ensures Tokens("#" + comment + text) == Tokens(text)
  {
    hide Tokens;
    var s := "#" + comment + text;
    assert s[1..] == comment + text;
    CommentDrops(comment, text);
    var n := 1 + |comment|;
    assert s[n..] == text;
    SkippedComment(s, n);
  }

  lemma {:induction false} CommentDrops(comment: string, text: string)
    requires '\n' !in comment && (text == "" || text[0] == '\n')
    ensures AfterComment(comment + text) == text
  {
    if comment != "" {
      assert (comment + text)[1..] == comment[1..] + text;
      CommentDrops(comment[1..], text);
    } else {
      assert comment + text == text;
    }
  }

  /** A character of a word: not a blank and not the start of a comment. */
  predicate IsWordChar(c: char) {
    c != '#' && c != ' ' && c != '\t' && c != '\r' && c != '\n'
  }

  /** and a word up to the next blank or comment is a token, if it has at most 16 characters, all of them printable ASCII. */
  lemma WordIsToken(word: string, text: string)
    requires word != "" && (forall i :: 0 <= i < |word| ==> IsWordChar(word[i])) && (text == "" || !IsWordChar(text[0]))
    ensures Tokens(word + text)
            == if |word| <= 16 && forall i :: 0 <= i < |word| ==> 0x21 <= word[i] as int <= 0x7e
               then match Tokens(text) case Ok(more) => Ok([word] + more) case Err(e) => Err(e)
               else Err("PGM fixture is invalid")
  {
    var s := word + text;
    assert s[..|word|] == word && s[|word|..] == text;
    assert forall i :: 0 <= i < |word| ==> s[i] == word[i];
    FirstWord(s, |word|);
  }

  lemma NothingHasNoTokens()
    ensures Tokens("") == Ok([])
  {
  }

  // -------------------------------------------------------------------- decoding

  /** A token that is a plain decimal number. */
  predicate IsNumber(token: string, n: int) {
    token != "" && AllDigits(token) && Value(token) == n
  }

  lemma NumberIs(token: string, n: U32)
    ensures ParseU32(token, "PGM value") == Ok(n) <==> IsNumber(token, n)
  {
  }

  lemma {:induction false} SamplesAre(tokens: seq<string>, pixels: seq<Pixel>)
    ensures Samples(tokens) == Ok(pixels)
            <==> |tokens| == |pixels| && forall k :: 0 <= k < |pixels| ==> IsNumber(tokens[k], pixels[k])
    decreases |tokens|
  {
    hide ParseU32, IsNumber;
    if tokens != [] && pixels != [] {
      var first := pixels[0];
      NumberIs(tokens[0], first);
      SamplesAre(tokens[1..], pixels[1..]);
      assert pixels == [first] + pixels[1..];
      if |tokens| == |pixels| && forall k :: 0 <= k < |pixels| ==> IsNumber(tokens[k], pixels[k]) {
        assert forall k :: 0 <= k < |pixels| - 1 ==> tokens[1..][k] == tokens[k + 1] && pixels[1..][k] == pixels[k + 1];
      }
      if Samples(tokens) == Ok(pixels) {
        assert Samples(tokens[1..]) == Ok(pixels[1..]);
        forall k | 0 <= k < |pixels| ensures IsNumber(tokens[k], pixels[k]) {
          if k > 0 {
            assert IsNumber(tokens[1..][k - 1], pixels[1..][k - 1]);
          }
        }
      }
    }
  }

  /** A text decodes at a size exactly if its tokens are P2, that size, 255 and one number up to 255 for each pixel, and no more,
      within the limits. */
  lemma DecodesIff(bytes: string, width: U32, height: U32, pixels: seq<Pixel>)
    ensures DecodePgm(bytes, width, height) == Ok(pixels)
            <==> Tokens(bytes).Ok?
                 && var tokens := Tokens(bytes).value;
                    |tokens| == width * height + 4 && |tokens| <= 524288 && |pixels| == width * height
                    && tokens[0] == "P2" && IsNumber(tokens[1], width) && IsNumber(tokens[2], height)
                    && IsNumber(tokens[3], 255) && forall k :: 0 <= k < |pixels| ==> IsNumber(tokens[4 + k], pixels[k])
  {
    hide Tokens, Samples, ParseU32, IsNumber;
    if Tokens(bytes).Ok? && |Tokens(bytes).value| == width * height + 4 {
      var tokens := Tokens(bytes).value;
      SizeIsNatural(width, height);
      NumberIs(tokens[1], width);
      NumberIs(tokens[2], height);
      NumberIs(tokens[3], 255);
      SamplesAre(tokens[4..], pixels);
      assert forall k :: 0 <= k < width * height ==> tokens[4..][k] == tokens[4 + k];
      assert tokens[4..] == tokens[4..4 + width * height];
    }
  }

  lemma SizeIsNatural(width: U32, height: U32)
    ensures width * height >= 0
  {
  }

  // --------------------------------------------------------------------- printing

  function Numbers(row: seq<Pixel>): (words: seq<string>)
    ensures |words| == |row|
  {
    seq(|row|, i requires 0 <= i < |row| => Dec(row[i]))
  }

  lemma {:induction false} JoinMore(front: seq<string>, last: string)
    requires front != []
    ensures Join(front + [last], ' ') == Join(front, ' ') + " " + last
  {
    if |front| == 1 {
      assert (front + [last])[1..] == [last];
    } else {
      assert (front + [last])[1..] == front[1..] + [last];
      JoinMore(front[1..], last);
      assert front[0] + [' '] + (Join(front[1..], ' ') + " " + last) == front[0] + [' '] + Join(front[1..], ' ') + " " + last;
    }
  }

  /** A row is its numbers with one blank between them, */
  lemma {:induction false} RowIs(row: seq<Pixel>)
    requires row != []
    ensures RowText(row) == Join(Numbers(row), ' ')
  {
    hide Dec;
    var n := |row| - 1;
    RowTextStep(row, n);
    assert row[..n + 1] == row && Numbers(row) == Numbers(row[..n]) + [Dec(row[n])];
    if n == 0 {
      RowTextOfNothing();
      assert row[..0] == [] && Numbers(row) == [Dec(row[0])];
      assert "" + "" + Dec(row[0]) == Dec(row[0]);
    } else {
      RowIs(row[..n]);
      JoinMore(Numbers(row[..n]), Dec(row[n]));
    }
  }

  /** and a derivative is its header, with a comment line, and the rows, top to bottom, each on a line of its own, unless that is
      more than a megabyte. */
  lemma DerivativeIs(image: Image)
    requires image.Valid()
    ensures PgmText(image)
            == "P2\n" + ("# Just Scanner synthetic derivative\n"
                         + (Dec(image.width) + " " + (Dec(image.height) + "\n" + ("255\n" + Lines(image, image.height)))))
    ensures EncodePgm(image)
            == if |PgmText(image)| > 1048576 then Err("PGM derivative exceeds its safe limit") else Ok(PgmText(image))
  {
    RowsAreLines(image, image.height);
    HeaderIs(image.width, image.height, RowsText(image, image.height));
    hide HeaderThen, RowsText, Lines;
  }

  function Lines(image: Image, count: nat): string
    requires image.Valid() && count <= image.height
  {
    if count == 0 then ""
    else
      Lines(image, count - 1)
      + (if image.width == 0 then "" else Join(Numbers(Row(image, count - 1)), ' ')) + "\n"
  }

  lemma {:induction false} RowsAreLines(image: Image, count: nat)
    requires image.Valid() && count <= image.height
    ensures RowsText(image, count) == Lines(image, count)
  {
    hide Join, RowText, Row;
    if count > 0 {
      RowsAreLines(image, count - 1);
      RowLength(image, count - 1);
      if image.width > 0 {
        RowIs(Row(image, count - 1));
      } else {
        RowTextOfNothing();
      }
    }
  }

  lemma RowLength(image: Image, y: nat)
    requires image.Valid() && y < image.height
    ensures |Row(image, y)| == image.width && (image.width == 0 ==> Row(image, y) == [])
  {
  }

  lemma HeaderIs(width: nat, height: nat, rest: string)
    ensures HeaderThen(width, height, rest)
            == "P2\n" + ("# Just Scanner synthetic derivative\n" + (Dec(width) + " " + (Dec(height) + "\n" + ("255\n" + rest))))
  {
    hide Dec;
    assert "P2" + "\n" == "P2\n" && "255" + "\n" == "255\n";
    assert "#" + PgmComment() + "\n" == "# Just Scanner synthetic derivative\n";
  }
}
