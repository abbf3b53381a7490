/** `QuoteModel`: a quote body and its author, and the two ways the program
    renders one. */
module QuoteModel {
  import opened Text

  /** The constructor keeps both fields exactly as given; each defaults to
      the empty string. */
  datatype Quote = Quote(body: string := "", author: string := "")

  /** `__repr__`: the body in double quotes, then ` - ` and the author. */
  function Repr(q: Quote): string {
    "\"" + q.body + "\" - " + q.author
  }

  /** `__str__`: a two-line description of the quote. */
  function Str(q: Quote): string {
    "Text quote body is:\n" + q.body + ",\nby author " + q.author
  }

  /** A quote built with no arguments has an empty body and an empty author,
      and building one stores its arguments unchanged. */
  lemma Defaults(b: string, a: string)
    ensures Quote().body == "" && Quote().author == ""
    ensures Quote(b).body == b && Quote(b).author == ""
    ensures Quote(b, a).body == b && Quote(b, a).author == a
  {
  }

  /** The rendering `"body" - author` tells quotes apart as long as no body
      holds a double quote: the second `"` then ends the body. */
  lemma ReprInjective(p: Quote, q: Quote)
    requires '"' !in p.body && '"' !in q.body
    ensures Repr(p) == Repr(q) <==> p == q
  {
    if Repr(p) == Repr(q) {
      var s := Repr(p);
      assert s[1..] == p.body + ['"'] + (" - " + p.author);
      assert s[1..] == q.body + ['"'] + (" - " + q.author);
      FirstOccurrence(p.body, " - " + p.author, q.body, " - " + q.author, '"');
      assert p.author == (" - " + p.author)[3..];
    }
  }

  /** The rendering `__str__` tells quotes apart as long as no body holds a
      comma: the first comma after the heading ends the body. */
  lemma StrInjective(p: Quote, q: Quote)
    requires ',' !in p.body && ',' !in q.body
    ensures Str(p) == Str(q) <==> p == q
  {
    if Str(p) == Str(q) {
      HeadedFields("Text quote body is:\n", ",\nby author ", p.body, p.author, q.body, q.author);
    }
  }

  /** Behind a common heading, a field without commas followed by a
      separator starting with a comma splits back into its parts. */
  lemma HeadedFields(head: string, sep: string, b1: string, a1: string, b2: string, a2: string)
    requires |sep| > 0 && sep[0] == ','
    requires ',' !in b1 && ',' !in b2
    requires head + b1 + sep + a1 == head + b2 + sep + a2
    ensures b1 == b2 && a1 == a2
  {
    var s1, s2 := head + b1 + sep + a1, head + b2 + sep + a2;
    var rest := sep[1..];
    assert s1[|head|..] == b1 + [','] + (rest + a1) by {
      assert s1 == head + (b1 + [','] + (rest + a1));
    }
    assert s2[|head|..] == b2 + [','] + (rest + a2) by {
      assert s2 == head + (b2 + [','] + (rest + a2));
    }
    FirstOccurrence(b1, rest + a1, b2, rest + a2, ',');
    assert a1 == (rest + a1)[|rest|..];
    assert a2 == (rest + a2)[|rest|..];
  }

  /** Without that condition `__repr__` is ambiguous: a body holding `" - `
      renders like a shorter body whose author holds the rest. */
  lemma ReprAmbiguous()
    ensures Repr(Quote("a\" - b", "c")) == Repr(Quote("a", "b\" - c"))
    ensures Quote("a\" - b", "c") != Quote("a", "b\" - c")
  {
  }

  /** The text up to the first `c` and the text after it are determined by
      the whole string. */
  lemma FirstOccurrence(x1: string, y1: string, x2: string, y2: string, c: char)
    requires c !in x1 && c !in x2
    requires x1 + [c] + y1 == x2 + [c] + y2
    ensures x1 == x2 && y1 == y2
  {
    var s := x1 + [c] + y1;
    CharNotContained(x1, c);
    CharNotContained(x2, c);
    IndexOfPair(x1, y1, [c]);
    IndexOfPair(x2, y2, [c]);
    assert s[..|x1|] == x1 && s[|x1| + 1..] == y1;
    assert s[..|x2|] == x2 && s[|x2| + 1..] == y2;
  }

  lemma CharNotContained(x: string, c: char)
    requires c !in x
    ensures !Contains(x, [c])
  {
    forall j | 0 <= j <= |x| ensures !OccursAt(x, [c], j) {
      if j + 1 <= |x| {
        assert x[j..j + 1] == [x[j]];
      }
    }
  }
}
