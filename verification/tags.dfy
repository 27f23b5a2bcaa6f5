/** The composer's tag parsing: the raw text is split at every comma and
    each piece is trimmed.
    Splitting keeps empty pieces, so the number of tags is always one more
    than the number of commas in the raw input. */
module Tags {
  import opened Text

  /** Number of occurrences of `c` in `s`. */
  function Count(s: string, c: char): nat {
    if s == [] then 0 else (if s[0] == c then 1 else 0) + Count(s[1..], c)
  }

  /** Joins pieces with one separator between neighbours: the inverse of Split. */
  function Join(parts: seq<string>, sep: char): string
    requires |parts| >= 1
  {
    if |parts| == 1 then parts[0] else parts[0] + [sep] + Join(parts[1..], sep)
  }

  /** JavaScript's string split for a one-character separator: every
      separator ends a piece, empty pieces included, and the empty string
      gives one empty piece. */
  function Split(s: string, sep: char): (parts: seq<string>)
    ensures |parts| == Count(s, sep) + 1
    ensures forall i :: 0 <= i < |parts| ==> sep !in parts[i]
    ensures Join(parts, sep) == s
  {
    if s == [] then [""]
    else
      var rest := Split(s[1..], sep);
      if s[0] == sep then
        [""] + rest
      else
        assert ([s[0]] + rest[0]) + Join(rest, sep)[|rest[0]|..] == s;
        [[s[0]] + rest[0]] + rest[1..]
  }

  /** Splitting a join of separator-free pieces gives the pieces back. */
  lemma {:induction false} SplitJoin(parts: seq<string>, sep: char)
    requires |parts| >= 1
    requires forall i :: 0 <= i < |parts| ==> sep !in parts[i]
    ensures Split(Join(parts, sep), sep) == parts
    decreases |parts|, |parts[0]|
  {
    var s := Join(parts, sep);
    if parts[0] == [] {
      if |parts| == 1 {
        assert s == [];
      } else {
        assert s == [sep] + Join(parts[1..], sep);
        assert s[1..] == Join(parts[1..], sep);
        SplitJoin(parts[1..], sep);
        assert parts == [""] + parts[1..];
      }
    } else {
      var c := parts[0][0];
      assert c != sep by { assert c == parts[0][0]; }
      var shorter := [parts[0][1..]] + parts[1..];
      assert forall i :: 0 <= i < |shorter| ==> sep !in shorter[i] by {
        forall i | 0 <= i < |shorter| ensures sep !in shorter[i] {
          if i == 0 {
            assert forall k :: 0 <= k < |shorter[0]| ==> shorter[0][k] == parts[0][k + 1];
          } else {
            assert shorter[i] == parts[i];
          }
        }
      }
      assert shorter[1..] == parts[1..];
      assert s == [c] + Join(shorter, sep) by {
        if |parts| == 1 {
          assert parts[0] == [c] + parts[0][1..];
        } else {
          assert parts[0] == [c] + parts[0][1..];
        }
      }
      assert s[1..] == Join(shorter, sep);
      SplitJoin(shorter, sep);
      assert parts[0] == [c] + shorter[0];
      assert parts == [parts[0]] + parts[1..];
    }
  }

  /** Splitting at a first separator-free piece peels that piece off. */
  lemma SplitCons(p: string, rest: string, sep: char)
    requires sep !in p
    ensures Split(p + [sep] + rest, sep) == [p] + Split(rest, sep)
  {
    var parts := [p] + Split(rest, sep);
    assert parts[1..] == Split(rest, sep);
    assert Join(parts, sep) == p + [sep] + rest;
    SplitJoin(parts, sep);
  }

  /** A string without the separator splits into itself alone. */
  lemma SplitSingle(p: string, sep: char)
    requires sep !in p
    ensures Split(p, sep) == [p]
  {
    SplitJoin([p], sep);
  }

  /** Trims every piece, keeping the order and the empty pieces. */
  function TrimEach(pieces: seq<string>): (tags: seq<string>)
    ensures |tags| == |pieces|
    ensures forall i :: 0 <= i < |tags| ==> tags[i] == Trim(pieces[i])
  {
    if pieces == [] then [] else [Trim(pieces[0])] + TrimEach(pieces[1..])
  }

  /** The composer's tag parsing: split the raw text at every comma, keeping
      empty pieces, and trim each piece. */
  function ParseTags(raw: string): (tags: seq<string>)
    ensures |tags| == Count(raw, ',') + 1
    ensures forall i :: 0 <= i < |tags| ==> Trimmed(tags[i])
  {
    TrimEach(Split(raw, ','))
  }

  /** ParseTags against an independent description of its input: when the
      raw string is comma-free pieces joined by commas, the tags are those
      pieces in order, each trimmed, and none is dropped. */
  lemma ParseTagsOfJoin(pieces: seq<string>)
    requires |pieces| >= 1
    requires forall i :: 0 <= i < |pieces| ==> ',' !in pieces[i]
    ensures |ParseTags(Join(pieces, ','))| == |pieces|
    ensures forall i :: 0 <= i < |pieces| ==> ParseTags(Join(pieces, ','))[i] == Trim(pieces[i])
  {
    SplitJoin(pieces, ',');
  }

  /** The first comma-free piece of the raw text gives the first tag; the
      rest of the text gives the others. */
  lemma ParseTagsCons(p: string, rest: string)
    requires ',' !in p
    ensures ParseTags(p + [','] + rest) == [Trim(p)] + ParseTags(rest)
  {
    SplitCons(p, rest, ',');
    var pieces := [p] + Split(rest, ',');
    assert pieces[1..] == Split(rest, ',');
  }

  /** Text without a comma is one tag, trimmed. */
  lemma ParseTagsSingle(p: string)
    requires ',' !in p
    ensures ParseTags(p) == [Trim(p)]
  {
    SplitSingle(p, ',');
  }

  /** A tag with no whitespace at its ends is kept as it is. */
  lemma TrimKeepsTrimmed(w: string)
    requires Trimmed(w)
    ensures Trim(w) == w
  {
    assert w[0..|w|] == w && w[..0] == [] && w[|w|..] == [];
    TrimUnique(w, w, 0);
  }

  /** One space on each side of a tag is trimmed away. */
  lemma TrimDropsPadding(w: string)
    requires Trimmed(w)
    ensures Trim(" " + w + " ") == w
  {
    var s := " " + w + " ";
    assert s[1..1 + |w|] == w && s[..1] == " " && s[1 + |w|..] == " ";
    TrimUnique(s, w, 1);
  }

  /** A piece of blanks trims to the empty tag. */
  lemma TrimBlank(w: string)
    requires AllSpace(w)
    ensures Trim(w) == ""
  {
    assert w[..0] == [] && w[0..0] == [] && w[0..] == w;
    TrimUnique(w, "", 0);
  }

  /** Four comma-free pieces joined by commas give their four trims. */
  lemma ParseTagsFour(p0: string, p1: string, p2: string, p3: string)
    requires ',' !in p0 && ',' !in p1 && ',' !in p2 && ',' !in p3
    ensures ParseTags(p0 + [','] + (p1 + [','] + (p2 + [','] + p3))) == [Trim(p0), Trim(p1), Trim(p2), Trim(p3)]
  {
    var r2 := p2 + [','] + p3;
    var r1 := p1 + [','] + r2;
    ParseTagsSingle(p3);
    ParseTagsCons(p2, p3);
    ParseTagsCons(p1, r2);
    ParseTagsCons(p0, r1);
    ConsFour(Trim(p0), Trim(p1), Trim(p2), Trim(p3));
  }

  lemma ConsFour<T>(a: T, b: T, c: T, d: T)
    ensures [a] + ([b] + ([c] + [d])) == [a, b, c, d]
  {
  }

  /** Padding around a tag is trimmed away, and a piece of blanks between
      two commas becomes an empty tag that is kept. */
  lemma ParseTagsSpacedPieces(a: string, b: string, blank: string, c: string)
    requires Trimmed(a) && Trimmed(b) && Trimmed(c) && AllSpace(blank)
    requires ',' !in a && ',' !in b && ',' !in blank && ',' !in c
    ensures ParseTags(a + ", " + b + " ," + blank + "," + c) == [a, b, "", c]
  {
    var padded := " " + b + " ";
    assert a + ", " + b + " ," + blank + "," + c == a + [','] + (padded + [','] + (blank + [','] + c));
    assert ',' !in padded;
    ParseTagsFour(a, padded, blank, c);
    TrimKeepsTrimmed(a);
    TrimDropsPadding(b);
    TrimBlank(blank);
    TrimKeepsTrimmed(c);
  }

  /** Worked example: `java, web , ,css` has four tags, one of them empty. */
  lemma ParseTagsExample()
    ensures ParseTags("java, web , ,css") == ["java", "web", "", "css"]
  {
    ExampleText();
    ParseTagsSpacedPieces("java", "web", " ", "css");
  }

  lemma ExampleText()
    ensures "java" + ", " + "web" + " ," + " " + "," + "css" == "java, web , ,css"
  {
  }

  /** A lone comma gives two empty tags. */
  lemma ParseTagsLoneComma()
    ensures ParseTags(",") == ["", ""]
  {
    assert "" + [','] + "" == ",";
    ParseTagsSingle("");
    ParseTagsCons("", "");
    TrimKeepsTrimmed("");
  }
}
