/** The objects and the end of a written document, character by character. */
module PdfTexts {
  import opened Text
  import opened Pgm
  import opened Pdf
  import opened PdfReader
  import opened PdfLayout

  lemma {:induction false} WordsAppend(a: seq<string>, b: seq<string>)
    requires a != [] && b != []
    ensures Words(a + b) == Words(a) + (" " + Words(b))
  {
    if |a| == 1 {
      assert (a + b)[1..] == b && a[0] + [' '] + Words(b) == a[0] + (" " + Words(b));
    } else {
      assert (a + b)[1..] == a[1..] + b;
      WordsAppend(a[1..], b);
      assert a[0] + [' '] + (Words(a[1..]) + (" " + Words(b))) == a[0] + [' '] + Words(a[1..]) + (" " + Words(b));
    }
  }

  lemma OneWord(a: string)
    ensures Words([a]) == a
  {
    assert [a][1..] == [];
  }

  lemma TwoWords(a: string, b: string)
    ensures Words([a, b]) == a + (" " + b)
  {
    hide Words;
    OneWord(a);
    OneWord(b);
    WordsAppend([a], [b]);
    assert [a] + [b] == [a, b];
  }

  lemma FourWords(a: string, b: string, c: string, d: string)
    ensures Words([a, b, c, d]) == a + (" " + (b + (" " + (c + (" " + d)))))
  {
    hide Words;
    TwoWords(a, b);
    TwoWords(c, d);
    WordsAppend([a, b], [c, d]);
    assert [a, b] + [c, d] == [a, b, c, d];
    assert a + (" " + b) + (" " + (c + (" " + d))) == a + (" " + (b + (" " + (c + (" " + d)))));
  }

  lemma FiveWords(a: string, b: string, c: string, d: string, e: string)
    ensures Words([a, b, c, d, e]) == a + (" " + (b + (" " + (c + (" " + (d + (" " + e)))))))
  {
    hide Words;
    OneWord(a);
    FourWords(b, c, d, e);
    WordsAppend([a], [b, c, d, e]);
    assert [a] + [b, c, d, e] == [a, b, c, d, e];
  }

  /** The catalog is one line, */
  lemma CatalogText()
    ensures Catalog() == "<< /Type /Catalog /Pages 2 0 R >>"
  {
    hide Words;
    var front, back := ["<<", "/Type", "/Catalog", "/Pages"], ["2", "0", "R", ">>"];
    FourWords("<<", "/Type", "/Catalog", "/Pages");
    FourWords("2", "0", "R", ">>");
    WordsAppend(front, back);
    assert CatalogWords() == front + back;
    assert Words(front) == "<< /Type /Catalog /Pages";
    assert Words(back) == "2 0 R >>";
  }

  /** a page is one, */
  lemma PageText(sheet: Sheet, number: nat)
    ensures PageBody(sheet, number)
            == "<< /Type /Page /Parent 2 0 R /MediaBox [0 0" + (" " + (sheet.width + (" " + (sheet.height + "]"))))
               + (" " + ("/Resources << /XObject << /Im0" + (" " + (Dec(number + 2) + " 0 R >> >>"))))
               + (" " + ("/Contents " + Dec(number + 1) + " 0 R >>"))
  {
    hide Words, Dec, TypeWords, ResourceWords, ContentsWords;
    var a, b := sheet.width, sheet.height + "]";
    TypeText();
    TwoWords(a, b);
    ResourceText(Dec(number + 2), number);
    ContentsText(Dec(number + 1), number);
    WordsAppend(TypeWords(), [a, b]);
    WordsAppend(TypeWords() + [a, b], ResourceWords(number));
    WordsAppend(TypeWords() + [a, b] + ResourceWords(number), ContentsWords(number));
  }

  lemma TypeText()
    ensures TypeWords() != [] && Words(TypeWords()) == "<< /Type /Page /Parent 2 0 R /MediaBox [0 0"
  {
    hide Words;
    var front, back := ["<<", "/Type", "/Page", "/Parent", "2"], ["0", "R", "/MediaBox", "[0", "0"];
    ParentText();
    BoxText();
    WordsAppend(front, back);
    assert TypeWords() == front + back;
  }

  lemma ParentText()
    ensures Words(["<<", "/Type", "/Page", "/Parent", "2"]) == "<< /Type /Page /Parent 2"
  {
    hide Words;
    FiveWords("<<", "/Type", "/Page", "/Parent", "2");
  }

  lemma BoxText()
    ensures Words(["0", "R", "/MediaBox", "[0", "0"]) == "0 R /MediaBox [0 0"
  {
    hide Words;
    FiveWords("0", "R", "/MediaBox", "[0", "0");
  }

  lemma ResourceText(image: string, number: nat)
    requires image == Dec(number + 2)
    ensures ResourceWords(number) != []
    ensures Words(ResourceWords(number)) == "/Resources << /XObject << /Im0" + (" " + (image + " 0 R >> >>"))
  {
    hide Words, Dec;
    FiveWords("/Resources", "<<", "/XObject", "<<", "/Im0");
    FiveWords(image, "0", "R", ">>", ">>");
    var front, back := ["/Resources", "<<", "/XObject", "<<", "/Im0"], [image, "0", "R", ">>", ">>"];
    WordsAppend(front, back);
    assert ResourceWords(number) == front + back;
    assert Words(front) == "/Resources << /XObject << /Im0";
    assert " " + ("0" + (" " + ("R" + (" " + (">>" + (" " + ">>")))))) == " 0 R >> >>";
  }

  lemma ContentsText(content: string, number: nat)
    requires content == Dec(number + 1)
    ensures ContentsWords(number) != [] && Words(ContentsWords(number)) == "/Contents " + content + " 0 R >>"
  {
    hide Words, Dec;
    FiveWords("/Contents", content, "0", "R", ">>");
    assert " " + ("0" + (" " + ("R" + (" " + ">>")))) == " 0 R >>";
  }

  /** its content says its length and draws the picture over the whole page, */
  lemma ContentText(sheet: Sheet)
    ensures var drawing := "q\n" + sheet.width + " 0 0 " + sheet.height + " 0 0 cm\n/Im0 Do\nQ\n";
            ContentBody(sheet) == "<< /Length " + Dec(|drawing|) + " >>\nstream\n" + drawing + "endstream"
  {
    hide Words, Dec;
    var length := Dec(|Content(sheet)|);
    FourWords("<<", "/Length", length, "");
    assert "<< /Length " == "<<" + (" " + ("/Length" + " "));
    StreamPieces("<< /Length " + length, Content(sheet), "endstream");
  }

  lemma StreamPieces(dict: string, data: string, end: string)
    ensures dict + " " + (">>\nstream\n" + (data + end)) == dict + " >>\nstream\n" + data + end
  {
  }

  /** and its picture says its size and its length, and is the pixels. */
  lemma ImageText(image: Image)
    ensures ImageBody(image)
            == "<< /Type /XObject /Subtype /Image" + (" " + ("/Width" + (" " + (Dec(image.width) + (" " + ("/Height"
               + (" " + Dec(image.height))))))))
               + (" " + "/ColorSpace /DeviceGray /BitsPerComponent 8")
               + (" " + ("/Length" + (" " + Dec(|image.pixels|)))) + " >>\nstream\n" + PixelBytes(image) + "\nendstream"
  {
    hide Words, Dec, PixelBytes;
    var w, h, length := Dec(image.width), Dec(image.height), Dec(|image.pixels|);
    var size, last := ["/Width", w, "/Height", h], ["/Length", length];
    KindText();
    FormatText();
    FourWords("/Width", w, "/Height", h);
    TwoWords("/Length", length);
    OneWord("");
    WordsAppend(KindWords(), size);
    WordsAppend(KindWords() + size, FormatWords());
    WordsAppend(KindWords() + size + FormatWords(), last);
    WordsAppend(KindWords() + size + FormatWords() + last, [""]);
    DictInPieces(image);
    var dict := Words(KindWords() + size + FormatWords() + last);
    assert dict + (" " + "") == dict + " ";
    StreamPieces(dict, PixelBytes(image), "\nendstream");
  }

  function KindWords(): seq<string> {
    ["<<", "/Type", "/XObject", "/Subtype", "/Image"]
  }

  function FormatWords(): seq<string> {
    ["/ColorSpace", "/DeviceGray", "/BitsPerComponent", "8"]
  }

  lemma KindText()
    ensures KindWords() != [] && Words(KindWords()) == "<< /Type /XObject /Subtype /Image"
  {
    hide Words;
    FiveWords("<<", "/Type", "/XObject", "/Subtype", "/Image");
  }

  lemma FormatText()
    ensures FormatWords() != [] && Words(FormatWords()) == "/ColorSpace /DeviceGray /BitsPerComponent 8"
  {
    hide Words;
    TwoWords("/ColorSpace", "/DeviceGray");
    TwoWords("/BitsPerComponent", "8");
    WordsAppend(["/ColorSpace", "/DeviceGray"], ["/BitsPerComponent", "8"]);
    assert FormatWords() == ["/ColorSpace", "/DeviceGray"] + ["/BitsPerComponent", "8"];
    assert "/ColorSpace" + (" " + "/DeviceGray") == "/ColorSpace /DeviceGray";
    assert "/BitsPerComponent" + (" " + "8") == "/BitsPerComponent 8";
  }

  lemma DictInPieces(image: Image)
    ensures var words := KindWords() + ["/Width", Dec(image.width), "/Height", Dec(image.height)] + FormatWords()
                         + ["/Length", Dec(|image.pixels|)] + [""];
            words != [] && ImageDict(image) == Words(words)
  {
    hide Words, Dec;
    assert ["<<", "/Type", "/XObject", "/Subtype", "/Image", "/Width", Dec(image.width), "/Height", Dec(image.height),
            "/ColorSpace", "/DeviceGray", "/BitsPerComponent", "8", "/Length", Dec(|image.pixels|), ""]
        == KindWords() + ["/Width", Dec(image.width), "/Height", Dec(image.height)] + FormatWords()
           + ["/Length", Dec(|image.pixels|)] + [""];
  }

  /** The document ends with the trailer, the place of the table and the mark of the end. */
  lemma TrailerText(count: nat, at: nat)
    ensures Trailer(count, at)
            == "trailer\n" + ("<< /Size" + (" " + (Dec(count) + " /Root 1 0 R >>"))) + "\n" + "startxref\n" + Dec(at) + "\n%%EOF\n"
  {
    hide Words, Dec;
    var size := Dec(count);
    TwoWords("<<", "/Size");
    OneWord(size);
    FiveWords("/Root", "1", "0", "R", ">>");
    WordsAppend([size], ["/Root", "1", "0", "R", ">>"]);
    WordsAppend(["<<", "/Size"], [size] + ["/Root", "1", "0", "R", ">>"]);
    assert TrailerWords(count) == ["<<", "/Size"] + ([size] + ["/Root", "1", "0", "R", ">>"]);
    assert "<<" + (" " + "/Size") == "<< /Size";
    assert " " + ("/Root" + (" " + ("1" + (" " + ("0" + (" " + ("R" + (" " + ">>")))))))) == " /Root 1 0 R >>";
    Regroup("trailer\n" + Words(TrailerWords(count)) + "\n", "startxref\n", Dec(at), "\n%%EOF\n");
  }

  lemma Regroup(a: string, b: string, c: string, d: string)
    ensures a + (b + (c + d)) == a + b + c + d
  {
  }

  // ------------------------------------------------------------------ the file

  /** An object with its number, its body and its end. */
  predicate IsObject(text: string, number: nat, body: string, from: nat, to: nat) {
    from <= to <= |text| && text[from..to] == Dec(number) + " 0 obj\n" + body + "\nendobj\n"
  }

  /** The header and the objects, numbered from 1, fill the front of the file without a gap. */
  lemma {:induction false} ObjectsFillTheFront(bodies: seq<string>) returns (at: seq<nat>)
    ensures |at| == |bodies| + 1 && at[0] == 15 && at[|bodies|] == |ObjectsText(bodies)|
    ensures |ObjectsText(bodies)| >= 15 && ObjectsText(bodies)[..15] == "%PDF-1.4\n%\U{E2}\U{E3}\U{CF}\U{D3}\n"
    ensures forall k :: 0 <= k < |bodies| ==> IsObject(ObjectsText(bodies), k + 1, bodies[k], at[k], at[k + 1])
    ensures forall k :: 0 <= k < |bodies| ==> at[k] == OffsetOf(bodies, k + 1)
  {
    hide IsObject, ObjectText;
    if bodies == [] {
      at := [15];
    } else {
      var n := |bodies| - 1;
      var front, last := ObjectsText(bodies[..n]), ObjectText(n + 1, bodies[n]);
      var before := ObjectsFillTheFront(bodies[..n]);
      at := before + [|front + last|];
      LastObject(front, n + 1, bodies[n]);
      forall k | 0 <= k < |bodies| ensures IsObject(front + last, k + 1, bodies[k], at[k], at[k + 1]) {
        if k < n {
          assert bodies[..n][k] == bodies[k];
          ObjectStays(front, last, k + 1, bodies[k], before[k], before[k + 1]);
        }
      }
      assert forall k :: 0 <= k < n ==> bodies[..n][..k] == bodies[..k];
    }
  }

  lemma LastObject(front: string, number: nat, body: string)
    ensures IsObject(front + ObjectText(number, body), number, body, |front|, |front + ObjectText(number, body)|)
  {
  }

  lemma ObjectStays(front: string, more: string, number: nat, body: string, from: nat, to: nat)
    requires IsObject(front, number, body, from, to)
    ensures IsObject(front + more, number, body, from, to)
  {
    assert (front + more)[from..to] == front[from..to];
  }

  /** An entry of the table is the place of its object in ten digits. */
  predicate IsEntry(table: string, number: nat, place: nat) {
    20 * number + 20 <= |table| && table[20 * number..20 * number + 20] == Padded(place, 10) + " 00000 n \n"
  }

  /** The whole file: the header, the objects without a gap, the table with the place of each of them, and the trailer. */
  lemma FileIs(bodies: seq<string>) returns (at: seq<nat>, table: string)
    requires Fits(bodies)
    ensures var n, pdf := |bodies|, PdfText(bodies);
            |at| == n + 1 && at[0] == 15 && at[n] <= |pdf| && |pdf| >= 15
            && pdf[..15] == "%PDF-1.4\n%\U{E2}\U{E3}\U{CF}\U{D3}\n"
            && (forall k :: 0 <= k < n ==> IsObject(pdf, k + 1, bodies[k], at[k], at[k + 1]))
            && pdf[at[n]..] == "xref\n0 " + (Dec(n + 1) + "\n") + (table + Trailer(n + 1, at[n]))
            && |table| == 20 * (n + 1) && table[..20] == "0000000000 65535 f \n"
            && forall k :: 0 <= k < n ==> IsEntry(table, k + 1, at[k])
  {
    hide Fits, IsObject, IsEntry, ObjectsText, Entries, Trailer, Padded, OffsetOf, Dec, OccursAt;
    var n := |bodies|;
    at := ObjectsFillTheFront(bodies);
    table := Entries(bodies, n);
    var front, rest := ObjectsText(bodies), XrefHead(n + 1) + (Entries(bodies, n) + Trailer(n + 1, |ObjectsText(bodies)|));
    forall k | 0 <= k < n ensures IsObject(front + rest, k + 1, bodies[k], at[k], at[k + 1]) && IsEntry(table, k + 1, at[k]) {
      ObjectStays(front, rest, k + 1, bodies[k], at[k], at[k + 1]);
      EntryStands(bodies, k + 1);
    }
    EntriesLength(bodies, n);
    EntriesStartFree(bodies, n);
    FreeFirst(table);
    assert (front + rest)[..15] == front[..15];
  }

  lemma EntryStands(bodies: seq<string>, number: nat)
    requires Fits(bodies) && 1 <= number <= |bodies|
    ensures IsEntry(Entries(bodies, |bodies|), number, OffsetOf(bodies, number))
  {
    hide Fits, OffsetOf, Padded, Entries;
    EntryPlace(bodies, |bodies|, number);
    OffsetFits(bodies, number);
  }

  lemma FreeFirst(table: string)
    requires OccursAt(table, "0000000000 65535 f \n", 0)
    ensures |table| >= 20 && table[..20] == "0000000000 65535 f \n"
  {
  }
}
