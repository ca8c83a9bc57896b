/** One sort value of a client: `field`, `field:asc` or `field:desc`, in any case and with spaces
    around each part (parseSort, page/order.go). */
module SortText {
  import opened Wrappers
  import opened Text

  predicate IsSpace(c: char) { c == ' ' || '\t' <= c <= '\r' }

  function TrimLeft(s: string): string {
    if s != "" && IsSpace(s[0]) then TrimLeft(s[1..]) else s
  }

  function TrimRight(s: string): string {
    if s != "" && IsSpace(s[|s| - 1]) then TrimRight(s[..|s| - 1]) else s
  }

  function TrimSpace(s: string): string { TrimRight(TrimLeft(s)) }

  function LowerChar(c: char): char {
    if 'A' <= c <= 'Z' then (c as int + 32) as char else c
  }

  function ToLower(s: string): (lower: string)
    ensures |lower| == |s|
  {
    Map(LowerChar, s)
  }

  /** strings.Cut at the first ':'. */
  function Cut(s: string): (string, string) {
    if s == "" then ("", "")
    else if s[0] == ':' then ("", s[1..])
    else
      var (before, after) := Cut(s[1..]);
      ([s[0]] + before, after)
  }

  /** A field, and whether it is descending. */
  function ParseSort(value: string): Result<(string, bool)> {
    var (before, after) := Cut(TrimSpace(value));
    var field, direction := TrimSpace(before), ToLower(TrimSpace(after));
    if field == "" then Err(ErrInvalidSort)
    else if direction == "" || direction == "asc" then Ok((field, false))
    else if direction == "desc" then Ok((field, true))
    else Err(ErrInvalidSort)
  }

  /** A name a client can sort by: no colon, and no space at either end. */
  predicate Plainly(field: string) {
    && field != ""
    && !IsSpace(field[0]) && !IsSpace(field[|field| - 1])
    && ':' !in field
  }

  lemma {:induction false} CutAtColon(field: string, rest: string)
    requires ':' !in field
    ensures Cut(field + ":" + rest) == (field, rest)
    ensures Cut(field) == (field, "")
  {
    if field == "" {
      assert field + ":" + rest == ":" + rest;
    } else {
      CutAtColon(field[1..], rest);
      assert (field + ":" + rest)[1..] == field[1..] + ":" + rest;
      assert field == [field[0]] + field[1..];
    }
  }

  /** A field reads back as itself, ascending alone and in the direction named after it. */
  lemma SortReadsBack(field: string, desc: bool)
    requires Plainly(field)
    ensures ParseSort(field) == Ok((field, false))
    ensures ParseSort(field + ":" + (if desc then "desc" else "asc")) == Ok((field, desc))
  {
    var direction := if desc then "desc" else "asc";
    CutAtColon(field, direction);
    var value := field + ":" + direction;
    assert value[|value| - 1] == direction[|direction| - 1];
    assert TrimSpace(value) == value && TrimSpace(field) == field && TrimSpace(direction) == direction;
    assert ToLower(direction) == direction;
    assert ToLower("") == "";
  }

  // ---- What folding does ------------------------------------------------------------------

  /** An upper-case letter and its lower case. */
  predicate CasePair(upper: char, lower: char) {
    'A' <= upper <= 'Z' && lower as int - 'a' as int == upper as int - 'A' as int
  }

  /** The strings differ in nothing but the case of letters. */
  predicate SameButCase(a: string, b: string) {
    && |a| == |b|
    && forall i :: 0 <= i < |a| ==> a[i] == b[i] || CasePair(a[i], b[i]) || CasePair(b[i], a[i])
  }

  predicate NoUpper(s: string) { forall i :: 0 <= i < |s| ==> !('A' <= s[i] <= 'Z') }

  lemma CharsFoldAlike(a: char, b: char)
    ensures LowerChar(a) == LowerChar(b) <==> a == b || CasePair(a, b) || CasePair(b, a)
  {
  }

  /** Names fold alike exactly if they differ in nothing but case. */
  lemma FoldsAlike(a: string, b: string)
    ensures ToLower(a) == ToLower(b) <==> SameButCase(a, b)
  {
    if |a| == |b| {
      forall i | 0 <= i < |a|
        ensures ToLower(a)[i] == ToLower(b)[i] <==> a[i] == b[i] || CasePair(a[i], b[i]) || CasePair(b[i], a[i])
      {
        CharsFoldAlike(a[i], b[i]);
      }
    }
  }

  /** The folded name is the one without upper case among those that fold alike. */
  lemma FoldedIs(s: string, lower: string)
    ensures lower == ToLower(s) <==> NoUpper(lower) && SameButCase(s, lower)
  {
    FoldsAlike(s, lower);
    assert NoUpper(ToLower(s));
    assert NoUpper(lower) ==> ToLower(lower) == lower;
    assert ToLower(ToLower(s)) == ToLower(s);
  }

  // ---- What a sort value says -------------------------------------------------------------

  predicate BlankChar(c: char) {
    c == ' ' || c == '\t' || c == '\n' || c == '\U{0B}' || c == '\U{0C}' || c == '\r'
  }

  predicate Blank(s: string) { forall i :: 0 <= i < |s| ==> BlankChar(s[i]) }

  /** Not blank at either end. */
  predicate Tight(s: string) {
    s == "" || (!BlankChar(s[0]) && !BlankChar(s[|s| - 1]))
  }

  predicate Directs(word: string, desc: bool) {
    if desc then SameButCase(word, "desc") else word == "" || SameButCase(word, "asc")
  }

  /** The value asks for the field, in this direction: the field stands alone, or before a colon and
      a direction. */
  ghost predicate Spells(value: string, field: string, desc: bool) {
    && field != "" && Tight(field) && ':' !in field
    && (SpellsAlone(value, field, desc) || SpellsDirected(value, field, desc))
  }

  ghost predicate SpellsAlone(value: string, field: string, desc: bool) {
    !desc && exists a, b :: Blank(a) && Blank(b) && value == a + field + b
  }

  ghost predicate SpellsDirected(value: string, field: string, desc: bool) {
    exists a, b, c, word, d ::
      && Blank(a) && Blank(b) && Blank(c) && Blank(d) && Directs(word, desc)
      && value == a + field + b + ":" + c + word + d
  }

  lemma SpacesAreBlanks()
    ensures forall c :: IsSpace(c) <==> BlankChar(c)
  {
  }

  lemma {:induction false} TrimLeftDrops(a: string, s: string)
    requires Blank(a) && (s == "" || !BlankChar(s[0]))
    ensures TrimLeft(a + s) == s
  {
    SpacesAreBlanks();
    if a == "" {
      assert a + s == s;
    } else {
      assert (a + s)[1..] == a[1..] + s;
      TrimLeftDrops(a[1..], s);
    }
  }

  lemma {:induction false} TrimRightDrops(s: string, b: string)
    requires Blank(b) && (s == "" || !BlankChar(s[|s| - 1]))
    ensures TrimRight(s + b) == s
  {
    SpacesAreBlanks();
    if b == "" {
      assert s + b == s;
    } else {
      assert (s + b)[..|s + b| - 1] == s + b[..|b| - 1];
      TrimRightDrops(s, b[..|b| - 1]);
    }
  }

  lemma {:induction false} TrimLeftSplits(s: string) returns (a: string)
    ensures Blank(a) && s == a + TrimLeft(s)
    ensures TrimLeft(s) == "" || !BlankChar(TrimLeft(s)[0])
  {
    SpacesAreBlanks();
    if s == "" || !IsSpace(s[0]) {
      a := "";
    } else {
      var rest := TrimLeftSplits(s[1..]);
      a := [s[0]] + rest;
      assert s == [s[0]] + s[1..];
    }
  }

  lemma {:induction false} TrimRightSplits(s: string) returns (b: string)
    ensures Blank(b) && s == TrimRight(s) + b
    ensures TrimRight(s) == "" || !BlankChar(TrimRight(s)[|TrimRight(s)| - 1])
  {
    SpacesAreBlanks();
    if s == "" || !IsSpace(s[|s| - 1]) {
      b := "";
    } else {
      var rest := TrimRightSplits(s[..|s| - 1]);
      b := rest + [s[|s| - 1]];
      assert s == s[..|s| - 1] + [s[|s| - 1]];
    }
  }

  lemma TrimSplits(s: string) returns (a: string, b: string)
    ensures Blank(a) && Blank(b) && s == a + TrimSpace(s) + b && Tight(TrimSpace(s))
  {
    a := TrimLeftSplits(s);
    b := TrimRightSplits(TrimLeft(s));
    Reassociate(a, TrimSpace(s), b);
  }

  lemma Reassociate(a: string, s: string, b: string)
    ensures a + (s + b) == a + s + b
  {
  }

  lemma TrimDrops(a: string, s: string, b: string)
    requires Blank(a) && Blank(b) && Tight(s)
    ensures TrimSpace(a + s + b) == s
  {
    if s == "" {
      assert a + s + b == (a + b) + "";
      TrimLeftDrops(a + b, "");
    } else {
      Reassociate(a, s, b);
      TrimLeftDrops(a, s + b);
      TrimRightDrops(s, b);
    }
  }

  lemma {:induction false} CutSplits(s: string)
    ensures
      var (before, after) := Cut(s);
      ':' !in before && (s == before + ":" + after || (s == before && after == ""))
  {
    if s == "" {
    } else if s[0] == ':' {
      assert s == "" + ":" + s[1..];
    } else {
      CutSplits(s[1..]);
      var (before, after) := Cut(s[1..]);
      assert s == [s[0]] + s[1..];
      if s[1..] == before + ":" + after { assert s == ([s[0]] + before) + ":" + after; }
    }
  }

  lemma DirectionIsRead(word: string, desc: bool)
    ensures Directs(word, desc)
       <==> if desc then ToLower(word) == "desc" else ToLower(word) == "" || ToLower(word) == "asc"
  {
    FoldedIs(word, "desc");
    FoldedIs(word, "asc");
  }

  lemma AssociateSpelling(a: string, a1: string, field: string, b1: string, c: string, word: string, d: string,
                          b: string)
    ensures a + ((a1 + field + b1) + ":" + (c + word + d)) + b == (a + a1) + field + b1 + ":" + c + word + (d + b)
    ensures a + (a1 + field + b1) + b == (a + a1) + field + (b1 + b)
  {
  }

  lemma ParsedIsSpelled(value: string)
    requires ParseSort(value).Ok?
    ensures Spells(value, ParseSort(value).value.0, ParseSort(value).value.1)
  {
    var (field, desc) := ParseSort(value).value;
    var a, b := TrimSplits(value);
    var (before, after) := Cut(TrimSpace(value));
    CutSplits(TrimSpace(value));
    var a1, b1 := TrimSplits(before);
    var c, d := TrimSplits(after);
    var word := TrimSpace(after);
    DirectionIsRead(word, desc);
    AssociateSpelling(a, a1, field, b1, c, word, d, b);
    assert ':' !in field by { assert forall i :: 0 <= i < |field| ==> field[i] == before[|a1| + i]; }
    assert Blank(a + a1) && Blank(b1 + b) && Blank(d + b);
    if TrimSpace(value) == before + ":" + after {
      assert SpellsDirected(value, field, desc);
    } else {
      assert word == "";
      assert SpellsAlone(value, field, desc);
    }
  }

  lemma AloneIsParsed(value: string, field: string, desc: bool)
    requires field != "" && Tight(field) && ':' !in field && SpellsAlone(value, field, desc)
    ensures ParseSort(value) == Ok((field, desc))
  {
    var a, b :| Blank(a) && Blank(b) && value == a + field + b;
    TrimDrops(a, field, b);
    CutAtColon(field, "");
    TrimDrops("", field, "");
    assert "" + field + "" == field;
    assert TrimSpace("") == "" && ToLower("") == "";
  }

  /** A value, its blanks trimmed, is cut into the field with blanks after it and the direction with
      blanks before it. */
  lemma DirectedIsCut(value: string, a: string, field: string, b: string, c: string, word: string, d: string)
    requires Blank(a) && Blank(b) && Blank(c) && Blank(d)
    requires field != "" && Tight(field) && ':' !in field && Tight(word)
    requires value == a + field + b + ":" + c + word + d
    ensures Cut(TrimSpace(value)) == (field + b, if word == "" then "" else c + word)
  {
    var rest, end := if word == "" then "" else c + word, if word == "" then c + d else d;
    var body := field + b + ":" + rest;
    assert value == a + body + end;
    assert Tight(body);
    TrimDrops(a, body, end);
    CutAtColon(field + b, rest);
  }

  lemma PartsAreParsed(value: string, before: string, after: string, field: string, word: string, desc: bool)
    requires Cut(TrimSpace(value)) == (before, after) && TrimSpace(before) == field && TrimSpace(after) == word
    requires field != "" && Directs(word, desc)
    ensures ParseSort(value) == Ok((field, desc))
  {
    DirectionIsRead(word, desc);
  }

  lemma DirectedIsParsed(value: string, a: string, field: string, b: string, c: string, word: string, d: string,
                         desc: bool)
    requires Blank(a) && Blank(b) && Blank(c) && Blank(d) && Directs(word, desc)
    requires field != "" && Tight(field) && ':' !in field
    requires value == a + field + b + ":" + c + word + d
    ensures ParseSort(value) == Ok((field, desc))
  {
    DirectedIsCut(value, a, field, b, c, word, d);
    TrimDrops("", field, b);
    assert "" + field + b == field + b;
    var after := if word == "" then "" else c + word;
    assert TrimSpace(after) == word by {
      if word != "" {
        TrimDrops(c, word, "");
        assert c + word + "" == c + word;
      }
    }
    PartsAreParsed(value, field + b, after, field, word, desc);
  }

  lemma SpelledIsParsed(value: string, field: string, desc: bool)
    requires Spells(value, field, desc)
    ensures ParseSort(value) == Ok((field, desc))
  {
    if SpellsAlone(value, field, desc) {
      AloneIsParsed(value, field, desc);
    } else {
      assert SpellsDirected(value, field, desc);
      var a, b, c, word, d :|
        && Blank(a) && Blank(b) && Blank(c) && Blank(d) && Directs(word, desc)
        && value == a + field + b + ":" + c + word + d;
      DirectedIsParsed(value, a, field, b, c, word, d, desc);
    }
  }

  /** A value parses as a field and a direction exactly if it spells them; what spells none is
      refused. */
  lemma ParseIsExact(value: string, field: string, desc: bool)
    ensures ParseSort(value) == Ok((field, desc)) <==> Spells(value, field, desc)
    ensures ParseSort(value).Err? ==> ParseSort(value).error == ErrInvalidSort
  {
    if ParseSort(value) == Ok((field, desc)) { ParsedIsSpelled(value); }
    if Spells(value, field, desc) { SpelledIsParsed(value, field, desc); }
  }
}
