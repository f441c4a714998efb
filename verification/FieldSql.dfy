/** The database functions that replace and remove the n-th field of a text with separators; NULL is None. */
module FieldSql {
  import opened Common

  // ----- splitting and joining -----

  /** The fields of a text; the empty text has one, which is empty. */
  function Fields(s: string, sep: char): (fs: seq<string>)
    ensures fs != []
  {
    if s == "" then [""]
    else
      var fs, c, n := Fields(s[..|s| - 1], sep), s[|s| - 1], |Fields(s[..|s| - 1], sep)| - 1;
      if c == sep then fs + [""] else fs[n := fs[n] + [c]]
  }

  /** string_to_array: as Fields, but the empty text has none. */
  function ToArray(s: string, sep: char): seq<string> {
    if s == "" then [] else Fields(s, sep)
  }

  /** array_to_string */
  function Join(fs: seq<string>, sep: char): string {
    if fs == [] then "" else if |fs| == 1 then fs[0] else Join(fs[..|fs| - 1], sep) + [sep] + fs[|fs| - 1]
  }

  predicate Free(fs: seq<string>, sep: char) {
    forall i :: 0 <= i < |fs| ==> sep !in fs[i]
  }

  lemma {:induction false} FieldsAppend(a: string, b: string, sep: char)
    requires sep !in b
    ensures Fields(a + [sep] + b, sep) == Fields(a, sep) + [b]
    decreases |b|
  {
    var s := a + [sep] + b;
    if b == "" {
      assert s == a + [sep] && s[..|s| - 1] == a;
    } else {
      var n := |b| - 1;
      assert b[n] in b && forall c :: c in b[..n] ==> c in b;
      FieldsAppend(a, b[..n], sep);
      assert s[..|s| - 1] == a + [sep] + b[..n] && s[|s| - 1] == b[n];
      assert b == b[..n] + [b[n]];
    }
  }

  lemma {:induction false} FieldsOfOne(b: string, sep: char)
    requires sep !in b
    ensures Fields(b, sep) == [b]
    decreases |b|
  {
    if b != "" {
      var n := |b| - 1;
      assert b[n] in b && forall c :: c in b[..n] ==> c in b;
      FieldsOfOne(b[..n], sep);
      assert b == b[..n] + [b[n]];
    }
  }

  /** Joined fields are split as they were. */
  lemma {:induction false} SplitJoined(fs: seq<string>, sep: char)
    requires fs != [] && Free(fs, sep)
    ensures Fields(Join(fs, sep), sep) == fs
    decreases |fs|
  {
    var n := |fs| - 1;
    assert sep !in fs[n];
    if n == 0 {
      FieldsOfOne(fs[0], sep);
    } else {
      SplitJoined(fs[..n], sep);
      FieldsAppend(Join(fs[..n], sep), fs[n], sep);
      assert fs == fs[..n] + [fs[n]];
    }
  }

  lemma {:induction false} FieldsFree(s: string, sep: char)
    ensures Free(Fields(s, sep), sep)
    decreases |s|
  {
    if s != "" {
      FieldsFree(s[..|s| - 1], sep);
    }
  }

  lemma JoinLast(fs: seq<string>, x: string, sep: char)
    requires fs != []
    ensures Join(fs + [x], sep) == Join(fs, sep) + [sep] + x
  {
    assert (fs + [x])[..|fs|] == fs;
  }

  /** One more character for the last field. */
  lemma JoinGrow(fs: seq<string>, c: char, sep: char)
    requires fs != []
    ensures var n := |fs| - 1; Join(fs[n := fs[n] + [c]], sep) == Join(fs, sep) + [c]
  {
    var n := |fs| - 1;
    if n > 0 {
      var gs := fs[n := fs[n] + [c]];
      assert gs[..n] == fs[..n];
      Regroup(Join(fs[..n], sep), [sep], fs[n], c);
    }
  }

  lemma Regroup(a: string, b: string, d: string, c: char)
    ensures a + b + (d + [c]) == a + b + d + [c]
  {
  }

  /** A text is its fields joined. */
  lemma {:induction false} JoinSplit(s: string, sep: char)
    ensures Join(Fields(s, sep), sep) == s
    decreases |s|
  {
    if s != "" {
      hide Join;
      var f, c := s[..|s| - 1], s[|s| - 1];
      JoinSplit(f, sep);
      assert s == f + [c];
      if c == sep {
        JoinLast(Fields(f, sep), "", sep);
        assert f + [sep] + "" == s;
      } else {
        JoinGrow(Fields(f, sep), c, sep);
      }
    }
  }

  // ----- the functions -----

  function Blanks(n: nat): seq<string> {
    seq(n, _ => "")
  }

  function Padded(fs: seq<string>, n: nat): seq<string> {
    if |fs| < n then fs + Blanks(n - |fs|) else fs
  }

  function Replaced(data: Option<string>, sep: char, n: int, x: string): Option<string> {
    if n == 0 then Some(x)
    else if n < 0 then
      if data == None || data == Some("") then Some(x) else Some(data.value + [sep] + x)
    else if data == None then data
    else Some(Join(Padded(ToArray(data.value, sep), n)[n - 1 := x], sep))
  }

  function Removed(data: Option<string>, sep: char, n: int): Option<string> {
    if n == 0 then Some("")
    else if n < 0 || data == None || data == Some("") then data
    else
      var fs := ToArray(data.value, sep);
      if n > |fs| then data else Some(Join(fs[..n - 1] + fs[n..], sep))
  }

  method FieldReplace(data: Option<string>, sep: char, fieldno: int, replacement: string) returns (result: Option<string>)
    ensures result == Replaced(data, sep, fieldno, replacement)
  {
    if fieldno == 0 {
      return Some(replacement);
    }
    if fieldno < 0 {
      if data == None || data == Some("") {
        return Some(replacement);
      }
      return Some(data.value + [sep] + replacement);
    }
    if data == None {
      return data;
    }
    var fields := ToArray(data.value, sep);
    if |fields| < fieldno {
      fields := fields + Blanks(fieldno - |fields|);
    }
    fields := fields[fieldno - 1 := replacement];
    return Some(Join(fields, sep));
  }

  method FieldRemove(data: Option<string>, sep: char, fieldno: int) returns (result: Option<string>)
    ensures result == Removed(data, sep, fieldno)
  {
    if fieldno <= 0 {
      if fieldno == 0 {
        return Some("");
      }
      return data;
    }
    if data == None || data == Some("") {
      return data;
    }
    var fields := ToArray(data.value, sep);
    if fieldno > |fields| {
      return data;
    }
    fields := fields[..fieldno - 1] + fields[fieldno..];
    return Some(Join(fields, sep));
  }

  // ----- laws -----

  /** Field n of a text, empty past the end. */
  function Read(s: string, sep: char, n: nat): string
    requires n > 0
  {
    if n <= |Fields(s, sep)| then Fields(s, sep)[n - 1] else ""
  }

  lemma ToArrayFree(s: string, sep: char)
    ensures Free(ToArray(s, sep), sep)
  {
    FieldsFree(s, sep);
  }

  /** The fields of the text after a replacement. */
  lemma FieldsReplaced(s: string, sep: char, n: nat, x: string)
    requires n > 0 && sep !in x
    ensures Fields(Replaced(Some(s), sep, n, x).value, sep) == Padded(ToArray(s, sep), n)[n - 1 := x]
  {
    hide Fields, Join;
    ToArrayFree(s, sep);
    SplitJoined(Padded(ToArray(s, sep), n)[n - 1 := x], sep);
  }

  /** Field n reads as replaced, and every other field as before. */
  lemma ReplaceThenRead(s: string, sep: char, n: nat, x: string, m: nat)
    requires n > 0 && m > 0 && sep !in x
    ensures Read(Replaced(Some(s), sep, n, x).value, sep, m) == if m == n then x else Read(s, sep, m)
  {
    FieldsReplaced(s, sep, n, x);
  }

  /** There are then as many fields as before, or as the number says. */
  lemma ReplaceCount(s: string, sep: char, n: nat, x: string)
    requires n > 0 && sep !in x
    ensures |Fields(Replaced(Some(s), sep, n, x).value, sep)| == if n > |Fields(s, sep)| then n else |Fields(s, sep)|
  {
    FieldsReplaced(s, sep, n, x);
  }

  /** A negative number adds a field at the end, or makes it the only one of an empty text or NULL. */
  lemma ReplaceBelow(data: Option<string>, sep: char, n: int, x: string, m: nat)
    requires n < 0 && m > 0 && sep !in x
    ensures data == None || data == Some("") ==> Replaced(data, sep, n, x) == Some(x)
    ensures data.Some? && data.value != "" ==>
      var r, count := Replaced(data, sep, n, x), |Fields(data.value, sep)|;
      && r.Some? && |Fields(r.value, sep)| == count + 1
      && Read(r.value, sep, m) == if m == count + 1 then x else Read(data.value, sep, m)
  {
    if data.Some? {
      FieldsAppend(data.value, x, sep);
    }
  }

  /** Number 0 is the whole text, and NULL has no fields to replace or remove. */
  lemma WholeOrNull(data: Option<string>, sep: char, n: int, x: string)
    ensures Replaced(data, sep, 0, x) == Some(x) && Removed(data, sep, 0) == Some("")
    ensures n > 0 ==> Replaced(None, sep, n, x) == None
    ensures n != 0 ==> Removed(None, sep, n) == None
    ensures n < 0 ==> Removed(data, sep, n) == data
  {
  }

  /** Without field n the later fields move up by one and the earlier ones stay; beyond the fields nothing changes. */
  lemma RemoveThenRead(s: string, sep: char, n: nat, m: nat)
    requires n > 0 && m > 0
    ensures n > |Fields(s, sep)| ==> Removed(Some(s), sep, n) == Some(s)
    ensures n <= |Fields(s, sep)| ==>
      var r := Removed(Some(s), sep, n);
      && r.Some? && Read(r.value, sep, m) == Read(s, sep, if m < n then m else m + 1)
      && |Fields(r.value, sep)| == if |Fields(s, sep)| == 1 then 1 else |Fields(s, sep)| - 1
  {
    hide Join;
    var fs := Fields(s, sep);
    EmptyFields(sep);
    if s != "" && n <= |fs| {
      var rest := fs[..n - 1] + fs[n..];
      if rest == [] {
        EmptyJoin(sep);
      } else {
        FieldsFree(s, sep);
        hide Fields;
        assert Free(rest, sep);
        SplitJoined(rest, sep);
        assert Removed(Some(s), sep, n) == Some(Join(rest, sep));
      }
    }
  }

  /** Of two replacements only the last counts. */
  lemma ReplaceTwice(s: string, sep: char, n: nat, x: string, y: string)
    requires n > 0 && sep !in x && sep !in y
    ensures Replaced(Replaced(Some(s), sep, n, x), sep, n, y) == Replaced(Some(s), sep, n, y)
  {
    hide Fields, Join;
    FieldsReplaced(s, sep, n, x);
    var fs := Padded(ToArray(s, sep), n)[n - 1 := x];
    var t := Replaced(Some(s), sep, n, x).value;
    if t == "" {
      EmptyFields(sep);
      assert fs == [""] && n == 1;
    }
    assert Padded(ToArray(t, sep), n)[n - 1 := y] == Padded(ToArray(s, sep), n)[n - 1 := y];
  }

  lemma EmptyFields(sep: char)
    ensures Fields("", sep) == [""]
  {
  }

  /** Removing what was just replaced is as removing it at once, if and only if no padding was needed but for the
      field itself; and for negative numbers only in the trivial case. */
  lemma ReplaceThenRemove(data: Option<string>, sep: char, n: int, x: string)
    requires sep !in x
    ensures Removed(Replaced(data, sep, n, x), sep, n) == Removed(data, sep, n) <==>
            || n == 0
            || (n > 0 && (data == None || n <= |ToArray(data.value, sep)| + 1 || (data == Some("") && n == 2)))
            || (n < 0 && data == Some("") && x == "")
  {
    hide Fields, Join;
    if n > 0 && data.Some? {
      RemoveReplaced(data.value, sep, n, x);
    }
    assert data.Some? ==> |data.value + [sep] + x| > |data.value|;
  }

  lemma RemoveReplaced(s: string, sep: char, n: nat, x: string)
    requires n > 0 && sep !in x
    ensures Removed(Replaced(Some(s), sep, n, x), sep, n) == Removed(Some(s), sep, n) <==>
            n <= |ToArray(s, sep)| + 1 || (s == "" && n == 2)
  {
    hide Fields, Join;
    var fs := ToArray(s, sep);
    var gs := Padded(fs, n)[n - 1 := x];
    var t := Join(gs, sep);
    FieldsReplaced(s, sep, n, x);
    EmptyFields(sep);
    EmptyJoin(sep);
    JoinSplit(s, sep);
    if t == "" {
      assert gs == [""] && n == 1 && |fs| <= 1;
      assert s != "" ==> fs[..0] + fs[1..] == [];
    } else if n <= |fs| {
      assert gs[..n - 1] + gs[n..] == fs[..n - 1] + fs[n..];
    } else {
      var rest := fs + Blanks(n - 1 - |fs|);
      assert gs[..n - 1] + gs[n..] == rest;
      if n == |fs| + 1 {
        assert rest == fs;
      } else {
        ToArrayFree(s, sep);
        SplitJoined(rest, sep);
        assert s == "" && n == 2 ==> rest == [""];
      }
    }
  }

  lemma EmptyJoin(sep: char)
    ensures Join([], sep) == "" && Join([""], sep) == ""
  {
  }
}
