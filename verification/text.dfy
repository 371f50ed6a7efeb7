/** Character classes and the comma splitting done by
    `std::getline(stream, token, ',')`. */
module Text {

  /** The characters `std::isspace` accepts in the "C" locale. */
  predicate IsSpace(c: char) {
    c == ' ' || c == '\t' || c == '\n' || c == '\r' || c == '\U{000B}' || c == '\U{000C}'
  }

  /** A string made of whitespace only (the empty string included). */
  predicate Blank(s: string) {
    forall i :: 0 <= i < |s| ==> IsSpace(s[i])
  }

  /** `line.find(',') != std::string::npos`. */
  predicate HasComma(s: string) {
    ',' in s
  }

  /** Position of the first comma, or `|s|` when there is none. */
  function CommaIndex(s: string): (i: nat)
    ensures i <= |s|
    ensures ',' !in s[..i]
    ensures i < |s| <==> HasComma(s)
    ensures i < |s| ==> s[i] == ','
  {
    if s == [] then 0
    else if s[0] == ',' then 0
    else
      assert s[1..][..CommaIndex(s[1..])] == s[1..1 + CommaIndex(s[1..])];
      assert s[..1 + CommaIndex(s[1..])] == [s[0]] + s[1..][..CommaIndex(s[1..])];
      1 + CommaIndex(s[1..])
  }

  /** The tokens produced by repeated `std::getline(iss, token, ',')`:
      each call stops at a comma (which it consumes) or at the end, and a
      call made at the very end fails. Hence interior and leading empty
      fields are produced, but nothing follows a trailing comma. */
  function SplitFields(s: string): (fields: seq<string>)
    ensures s != [] <==> |fields| >= 1
    decreases |s|
  {
    if s == [] then []
    else
      var i := CommaIndex(s);
      if i == |s| then [s]
      else [s[..i]] + SplitFields(s[i + 1..])
  }

  /** A line without a comma is a single field. */
  lemma SplitNoComma(s: string)
    requires !HasComma(s) && s != []
    ensures SplitFields(s) == [s]
  {
  }

  /** No field holds a comma. */
  lemma {:induction false} FieldsLackCommas(s: string)
    ensures forall f :: f in SplitFields(s) ==> ',' !in f
    decreases |s|
  {
    if s != [] {
      var i := CommaIndex(s);
      if i == |s| {
        assert s[..i] == s;
      } else {
        FieldsLackCommas(s[i + 1..]);
      }
    }
  }

  /** Glues fields back together with one comma between neighbours. */
  function JoinFields(fields: seq<string>): string
  {
    if |fields| == 0 then ""
    else if |fields| == 1 then fields[0]
    else fields[0] + "," + JoinFields(fields[1..])
  }

  /** Splitting undoes joining, provided no field holds a comma and the
      last field is not empty (a trailing empty field is what `getline`
      drops). */
  lemma {:induction false} SplitJoin(fields: seq<string>)
    requires forall f :: f in fields ==> ',' !in f
    requires fields == [] || fields[|fields| - 1] != ""
    ensures SplitFields(JoinFields(fields)) == fields
    decreases |fields|
  {
    if |fields| == 0 {
    } else if |fields| == 1 {
      assert fields[0] in fields;
    } else {
      var s := JoinFields(fields);
      var rest := JoinFields(fields[1..]);
      assert fields[0] in fields;
      assert s == fields[0] + "," + rest;
      CommaOfPrefix(fields[0], rest);
      assert CommaIndex(s) == |fields[0]|;
      assert s[..|fields[0]|] == fields[0];
      assert s[|fields[0]| + 1..] == rest;
      forall f | f in fields[1..] ensures ',' !in f {
        assert f in fields;
      }
      SplitJoin(fields[1..]);
    }
  }

  lemma {:induction false} CommaOfPrefix(a: string, b: string)
    requires ',' !in a
    ensures CommaIndex(a + "," + b) == |a|
    decreases |a|
  {
    var s := a + "," + b;
    if a == [] {
      assert s[0] == ',';
    } else {
      assert s[0] == a[0];
      assert s[1..] == a[1..] + "," + b;
      CommaOfPrefix(a[1..], b);
    }
  }

  /** Joining what was split gives the line back, except that a trailing
      comma is lost. */
  lemma {:induction false} JoinSplit(s: string)
    ensures JoinFields(SplitFields(s)) + TrailingComma(s) == s
    decreases |s|
  {
    if s != [] {
      var i := CommaIndex(s);
      if i == |s| {
        assert s[..i] == s;
        assert s[|s| - 1] != ',' by { assert s[|s| - 1] in s[..i]; }
      } else {
        JoinSplit(s[i + 1..]);
        JoinSplitStep(s, i);
      }
    }
  }

  /** The comma `getline` drops: the last character, if it is one. */
  function TrailingComma(s: string): string {
    if s != [] && s[|s| - 1] == ',' then "," else ""
  }

  lemma JoinSplitStep(s: string, i: nat)
    requires i == CommaIndex(s) < |s|
    requires JoinFields(SplitFields(s[i + 1..])) + TrailingComma(s[i + 1..]) == s[i + 1..]
    ensures JoinFields(SplitFields(s)) + TrailingComma(s) == s
  {
    SplitAtComma(s);
    Reassemble(s, i);
    if s[i + 1..] == [] {
      JoinSplitLastComma(s[..i], s);
    } else {
      JoinSplitInner(s[..i], s[i + 1..], s);
    }
  }

  lemma JoinSplitLastComma(head: string, s: string)
    requires SplitFields(s) == [head] + SplitFields([])
    requires s == head + "," + []
    ensures JoinFields(SplitFields(s)) + TrailingComma(s) == s
  {
    assert SplitFields(s) == [head];
    assert s[|s| - 1] == ',';
  }

  lemma JoinSplitInner(head: string, t: string, s: string)
    requires t != []
    requires SplitFields(s) == [head] + SplitFields(t)
    requires s == head + "," + t
    requires JoinFields(SplitFields(t)) + TrailingComma(t) == t
    ensures JoinFields(SplitFields(s)) + TrailingComma(s) == s
  {
    var rest := SplitFields(t);
    JoinCons(head, rest);
    var jt := JoinFields(rest);
    assert TrailingComma(s) == TrailingComma(t) by {
      assert s[|s| - 1] == t[|t| - 1];
    }
    calc {
      JoinFields(SplitFields(s)) + TrailingComma(s);
      (head + "," + jt) + TrailingComma(t);
      { AssocConcat(head + ",", jt, TrailingComma(t)); }
      head + "," + (jt + TrailingComma(t));
      head + "," + t;
    }
  }

  lemma AssocConcat(a: string, b: string, c: string)
    ensures (a + b) + c == a + (b + c)
  {
  }

  lemma Reassemble(s: string, i: nat)
    requires i < |s| && s[i] == ','
    ensures s == s[..i] + "," + s[i + 1..]
    ensures i + 1 < |s| ==> s[|s| - 1] == s[i + 1..][|s| - i - 2]
  {
  }

  lemma SplitAtComma(s: string)
    requires HasComma(s)
    ensures SplitFields(s) == [s[..CommaIndex(s)]] + SplitFields(s[CommaIndex(s) + 1..])
  {
  }

  lemma JoinCons(head: string, rest: seq<string>)
    requires |rest| >= 1
    ensures JoinFields([head] + rest) == head + "," + JoinFields(rest)
  {
    assert ([head] + rest)[1..] == rest;
  }
}
