/**
 * The clinical-data merger: it reads the attribute metadata from the four `#` lines that head
 * every cBioPortal clinical file, reconciles it across files against the canonical attribute
 * list, merges the sample or patient tables, and renders the merged file; it also merges the
 * copy-number/fusion matrices and the mutation tables.
 */
module ClinicalDataMerge {
  import opened Results
  import opened Text
  import opened Frames

  /** An attribute property: a string, an integer (the canonical list may give one), or None. */
  datatype Value = Str(s: string) | Int(n: int) | Null

  /** One attribute's properties by name. */
  type Record = map<string, Value>

  /** Attribute records by column key. */
  type Attrs = map<string, Record>

  // The rows of a clinical file's head: four metadata rows, then the column keys.
  const ROW_DISPLAY: nat := 0
  const ROW_DESC: nat := 1
  const ROW_DATATYPE: nat := 2
  const ROW_PRIORITY: nat := 3
  const ROW_HEADER: nat := 4

  /** The properties a record read from a file holds, and the portal header renders. */
  predicate IsField(f: string)
  {
    f == "display_name" || f == "desc" || f == "datatype" || f == "priority"
  }

  /** The columns that identify a mutation. */
  const DATA_MUTATIONS_UNIQ_COLS: seq<string> :=
    ["Chromosome", "Start_Position", "End_Position", "Reference_Allele", "Tumor_Seq_Allele2", "Tumor_Sample_Barcode"]

  // ---------------------------------------------------------------- reading the attribute rows

  /** `format_string`: drops one leading `#`; the empty string raises IndexError at `s[0]`. */
  function FormatString(s: string): (r: Result<string, Error>)
    ensures r.Err? <==> s == []
    ensures r.Err? ==> r.error == IndexError
  {
    if |s| == 0 then Err(IndexError)
    else if s[0] == '#' then Ok(s[1..])
    else Ok(s)
  }

  /** Formatting removes at most one character, a leading `#`, and keeps the rest. */
  lemma FormatStringDropsOneHash(s: string)
    requires s != []
    ensures FormatString(s).Ok?
    ensures |s| - 1 <= |FormatString(s).value| <= |s|
    ensures FormatString(s).value == s[|s| - |FormatString(s).value|..]
    ensures |FormatString(s).value| < |s| <==> s[0] == '#'
  {
  }

  /** `match_headers_with_data`: field `i` of the stripped, tab-split row, formatted; None when it is missing or empty. */
  function MatchHeadersWithData(i: nat, line: string): (r: Value)
    ensures !r.Int?
  {
    var fields := Split(Strip(line), '\t');
    if i < |fields| then
      match FormatString(fields[i])
      case Ok(v) => Str(v)
      case Err(_) => Null
    else Null
  }

  /** The field comes from index `i` of the stripped, tab-split line; it is None exactly when that field is missing or empty. */
  lemma MatchHeadersWithDataField(i: nat, line: string)
    ensures var r := MatchHeadersWithData(i, line);
            var fields := Split(Strip(line), '\t');
            && (r.Null? <==> i >= |fields| || fields[i] == [])
            && (r.Str? ==> FormatString(fields[i]) == Ok(r.s))
  {
  }

  /** The four metadata fields of one column. */
  datatype Meta = Meta(displayName: Value, desc: Value, datatypes: Value, priority: Value)

  /** The fields `match_headers_with_data` reads for the column at index `i` from the four metadata rows. */
  function MetaAt(i: nat, data: seq<string>): Meta
    requires |data| > ROW_PRIORITY
  {
    Meta(MatchHeadersWithData(i, data[ROW_DISPLAY]), MatchHeadersWithData(i, data[ROW_DESC]),
         MatchHeadersWithData(i, data[ROW_DATATYPE]), MatchHeadersWithData(i, data[ROW_PRIORITY]))
  }

  /** The fields of the first `n` columns. */
  function MetasAt(n: nat, data: seq<string>): (ms: seq<Meta>)
    requires |data| > ROW_PRIORITY
    ensures |ms| == n
  {
    if n == 0 then [] else MetasAt(n - 1, data) + [MetaAt(n - 1, data)]
  }

  lemma {:induction false} MetasAtIndex(n: nat, data: seq<string>, i: nat)
    requires |data| > ROW_PRIORITY && i < n
    ensures MetasAt(n, data)[i] == MetaAt(i, data)
  {
    if i < n - 1 {
      MetasAtIndex(n - 1, data, i);
    }
  }

  /** `rec` with its four fields set. */
  function SetFields(rec: Record, m: Meta): Record
  {
    rec["display_name" := m.displayName]["desc" := m.desc]["datatype" := m.datatypes]["priority" := m.priority]
  }

  /** The record `compile_attrs` builds for the column at index `i`. */
  function RecordAt(i: nat, data: seq<string>): Record
    requires |data| > ROW_PRIORITY
  {
    SetFields(map[], MetaAt(i, data))
  }

  /** A record holding exactly the four fields. */
  ghost predicate FieldsOnly(rec: Record)
  {
    forall f :: f in rec <==> IsField(f)
  }

  /** Setting the fields of a record that has no others gives a fresh record: which record a repeated key had does not matter. */
  lemma SetFieldsOver(rec: Record, m: Meta)
    requires rec == map[] || FieldsOnly(rec)
    ensures SetFields(rec, m) == SetFields(map[], m)
    ensures FieldsOnly(SetFields(map[], m))
  {
  }

  /**
   * The dictionary the loop of `compile_attrs` builds: for each index in turn, the record under
   * `keys[i]` (a fresh one if there is none) has its four fields set from `metas[i]`.
   */
  function Assign(keys: seq<string>, metas: seq<Meta>): (d: Attrs)
    requires |metas| == |keys|
    ensures forall h :: h in d <==> h in keys
    decreases |keys|
  {
    if |keys| == 0 then map[]
    else
      var n := |keys| - 1;
      assert keys == keys[..n] + [keys[n]];
      var d := Assign(keys[..n], metas[..n]);
      d[keys[n] := SetFields(if keys[n] in d then d[keys[n]] else map[], metas[n])]
  }

  lemma AssignSnoc(keys: seq<string>, metas: seq<Meta>, k: string, m: Meta)
    requires |metas| == |keys|
    ensures var d := Assign(keys, metas);
            Assign(keys + [k], metas + [m]) == d[k := SetFields(if k in d then d[k] else map[], m)]
  {
    assert (keys + [k])[..|keys|] == keys;
    assert (metas + [m])[..|keys|] == metas;
  }

  /** Every record built holds exactly the four fields. */
  lemma {:induction false} AssignFieldsOnly(keys: seq<string>, metas: seq<Meta>, h: string)
    requires |metas| == |keys| && h in keys
    ensures FieldsOnly(Assign(keys, metas)[h])
    decreases |keys|
  {
    var n := |keys| - 1;
    var d := Assign(keys[..n], metas[..n]);
    if h == keys[n] {
      if h in d {
        AssignFieldsOnly(keys[..n], metas[..n], h);
      }
      SetFieldsOver(if h in d then d[h] else map[], metas[n]);
    } else {
      assert keys == keys[..n] + [keys[n]];
      AssignFieldsOnly(keys[..n], metas[..n], h);
    }
  }

  /** A key's record holds the fields of the last index at which the key occurs. */
  lemma {:induction false} AssignAt(keys: seq<string>, metas: seq<Meta>, i: nat)
    requires |metas| == |keys|
    requires i < |keys| && keys[i] !in keys[i + 1..]
    ensures Assign(keys, metas)[keys[i]] == SetFields(map[], metas[i])
    decreases |keys|
  {
    var n := |keys| - 1;
    var d := Assign(keys[..n], metas[..n]);
    if i < n {
      assert keys[n] in keys[i + 1..];
      var init := keys[..n];
      assert init[i] == keys[i];
      assert init[i + 1..] == keys[i + 1..n];
      assert keys[i + 1..] == keys[i + 1..n] + [keys[n]];
      AssignAt(init, metas[..n], i);
    } else {
      if keys[n] in d {
        AssignFieldsOnly(keys[..n], metas[..n], keys[n]);
      }
      SetFieldsOver(if keys[n] in d then d[keys[n]] else map[], metas[n]);
    }
  }

  /** What `compile_attrs` computes. */
  function Compiled(headers: seq<string>, data: seq<string>): Attrs
    requires |data| > ROW_PRIORITY
  {
    Assign(headers, MetasAt(|headers|, data))
  }

  /** Exactly the column keys get a record; a key's record holds the four fields read at the last column with that key. */
  lemma CompiledAt(headers: seq<string>, data: seq<string>, i: nat)
    requires |data| > ROW_PRIORITY
    requires i < |headers| && headers[i] !in headers[i + 1..]
    ensures Compiled(headers, data).Keys == set j | 0 <= j < |headers| :: headers[j]
    ensures Compiled(headers, data)[headers[i]] == RecordAt(i, data)
  {
    CompiledKeys(headers, data);
    AssignAt(headers, MetasAt(|headers|, data), i);
    MetasAtIndex(|headers|, data, i);
  }

  lemma CompiledKeys(headers: seq<string>, data: seq<string>)
    requires |data| > ROW_PRIORITY
    ensures Compiled(headers, data).Keys == set j | 0 <= j < |headers| :: headers[j]
  {
    var d := Compiled(headers, data);
    var ks := set j | 0 <= j < |headers| :: headers[j];
    forall h | h in d.Keys
      ensures h in ks
    {
      assert h in headers;
      var j :| 0 <= j < |headers| && headers[j] == h;
    }
  }

  /** One more column: its key's record gets the column's fields. */
  lemma CompileStep(headers: seq<string>, data: seq<string>, i: nat)
    requires |data| > ROW_PRIORITY && i < |headers|
    ensures var d := Assign(headers[..i], MetasAt(i, data));
            var h := headers[i];
            Assign(headers[..i + 1], MetasAt(i + 1, data)) == d[h := SetFields(if h in d then d[h] else map[], MetaAt(i, data))]
  {
    assert headers[..i + 1] == headers[..i] + [headers[i]];
    AssignSnoc(headers[..i], MetasAt(i, data), headers[i], MetaAt(i, data));
  }

  /**
   * `compile_attrs`: one record per column key, built column by column; a repeated key has its
   * four fields overwritten, so the last column with that key wins.
   */
  method CompileAttrs(headers: seq<string>, data: seq<string>) returns (d: Attrs)
    requires |data| > ROW_PRIORITY
    ensures d == Compiled(headers, data)
  {
    d := map[];
    for i := 0 to |headers|
      invariant d == Assign(headers[..i], MetasAt(i, data))
    {
      var header := headers[i];
      var rec: Record := if header in d then d[header] else map[];
      rec := SetFields(rec, MetaAt(i, data));
      CompileStep(headers, data, i);
      d := d[header := rec];
    }
    assert headers[..|headers|] == headers;
  }

  /** The lines iterating over a file's text yields, each with its line break. */
  function FileLines(text: string): seq<string>
  {
    var pieces := Split(text, '\n');
    var n := |pieces| - 1;
    seq(n, i requires 0 <= i < n => pieces[i] + "\n") + (if pieces[n] == "" then [] else [pieces[n]])
  }

  /** What `get_attr` reads from a clinical file: the records compiled from its first five lines. */
  function ReadAttrs(text: string): Result<Attrs, Error>
  {
    var lines := FileLines(text);
    if |lines| <= ROW_HEADER then Err(IndexError)
    else
      var data := lines[..ROW_HEADER + 1];
      Ok(Compiled(Split(Strip(data[ROW_HEADER]), '\t'), data))
  }

  /**
   * `get_attr` over the text `open(clin_file, 'r')` hands over (`FileTexts`): the column keys of
   * the fifth line paired with the four lines above it; a shorter file raises IndexError.
   */
  method GetAttr(text: string) returns (r: Result<Attrs, Error>)
    ensures r == ReadAttrs(text)
    ensures r.Err? <==> |FileLines(text)| < 5
  {
    var lines := FileLines(text);
    var data := if |lines| < 5 then lines else lines[..5];
    if |data| <= ROW_HEADER {
      return Err(IndexError);
    }
    var headers := Split(Strip(data[ROW_HEADER]), '\t');
    var attrs := CompileAttrs(headers, data);
    return Ok(attrs);
  }

  /** `get_clinical_attrs`: the records of every file, in file order; the first short file raises IndexError. */
  method GetClinicalAttrs(texts: seq<string>) returns (r: Result<seq<Attrs>, Error>)
    ensures r.Ok? <==> forall i :: 0 <= i < |texts| ==> ReadAttrs(texts[i]).Ok?
    ensures r.Err? ==> r.error == IndexError
    ensures r.Ok? ==> |r.value| == |texts| && forall i :: 0 <= i < |texts| ==> Ok(r.value[i]) == ReadAttrs(texts[i])
  {
    var all: seq<Attrs> := [];
    for i := 0 to |texts|
      invariant |all| == i
      invariant forall j :: 0 <= j < i ==> Ok(all[j]) == ReadAttrs(texts[j])
    {
      var attrs := GetAttr(texts[i]);
      if attrs.Err? {
        return Err(attrs.error);
      }
      all := all + [attrs.value];
    }
    return Ok(all);
  }

  // ---------------------------------------------------------------- reconciling the records

  /** `u` extended by the keys of `m` it does not have yet. */
  function AddNew(u: Attrs, m: Attrs): Attrs
  {
    map k | k in u.Keys + m.Keys :: if k in u then u[k] else m[k]
  }

  /** A dictionary with the keys of both, taking a key's record from `u` where it has one, is `AddNew(u, m)`. */
  lemma AddNewFrom(u: Attrs, m: Attrs, v: Attrs)
    requires forall k :: k in v <==> k in u || k in m
    requires forall k :: k in v ==> v[k] == if k in u then u[k] else m[k]
    ensures v == AddNew(u, m)
  {
  }

  lemma FirstWinsStep(files: seq<Attrs>, n: nat)
    requires n < |files|
    ensures FirstWins(files[..n + 1]) == AddNew(FirstWins(files[..n]), files[n])
  {
    assert files[..n + 1][..n] == files[..n];
  }

  /** The union of the files' records in which the first file to declare a key supplies its record. */
  function FirstWins(files: seq<Attrs>): Attrs
    decreases |files|
  {
    if |files| == 0 then map[] else AddNew(FirstWins(files[..|files| - 1]), files[|files| - 1])
  }

  /** The union has exactly the keys some file declares. */
  lemma {:induction false} FirstWinsKeys(files: seq<Attrs>, k: string)
    ensures k in FirstWins(files) <==> exists i :: 0 <= i < |files| && k in files[i]
    decreases |files|
  {
    if |files| > 0 {
      var n := |files| - 1;
      FirstWinsKeys(files[..n], k);
      if k in FirstWins(files[..n]) {
        var i :| 0 <= i < n && k in files[..n][i];
        assert files[i] == files[..n][i];
      }
      if exists i :: 0 <= i < |files| && k in files[i] {
        var i :| 0 <= i < |files| && k in files[i];
        if i < n {
          assert files[..n][i] == files[i];
        }
      }
    }
  }

  /** A key's record comes from the first file that declares it. */
  lemma {:induction false} FirstWinsFirst(files: seq<Attrs>, i: nat, k: string)
    requires i < |files| && k in files[i]
    requires forall j :: 0 <= j < i ==> k !in files[j]
    ensures k in FirstWins(files) && FirstWins(files)[k] == files[i][k]
    decreases |files|
  {
    var n := |files| - 1;
    if i < n {
      assert files[..n][i] == files[i];
      assert forall j :: 0 <= j < i ==> files[..n][j] == files[j];
      FirstWinsFirst(files[..n], i, k);
    } else {
      FirstWinsKeys(files[..n], k);
      assert forall j :: 0 <= j < n ==> files[..n][j] == files[j];
    }
  }

  /** The records with every key the canonical list knows replaced by its canonical record. */
  function Overridden(attrs: Attrs, canonical: Attrs): Attrs
  {
    map k | k in attrs :: if k in canonical then canonical[k] else attrs[k]
  }

  /** `override_attr`: every key in both maps takes the canonical record; every other key keeps its own; no key is added or removed. */
  method OverrideAttr(attrs: Attrs, canonical: Attrs) returns (r: Attrs)
    ensures r.Keys == attrs.Keys
    ensures forall k :: k in r && k in canonical ==> r[k] == canonical[k]
    ensures forall k :: k in r && k !in canonical ==> r[k] == attrs[k]
  {
    r := attrs;
    var keys := attrs.Keys;
    while keys != {}
      invariant keys <= attrs.Keys && r.Keys == attrs.Keys
      invariant forall k :: k in r && k in keys ==> r[k] == attrs[k]
      invariant forall k :: k in r && k !in keys ==> r[k] == if k in canonical then canonical[k] else attrs[k]
      decreases keys
    {
      var key :| key in keys;
      if key in canonical {
        r := r[key := canonical[key]];
      }
      keys := keys - {key};
    }
  }

  /** A dictionary with the keys of `attrs`, each with its canonical record where there is one, is `Overridden(attrs, canonical)`. */
  lemma OverriddenFrom(attrs: Attrs, canonical: Attrs, r: Attrs)
    requires r.Keys == attrs.Keys
    requires forall k :: k in r && k in canonical ==> r[k] == canonical[k]
    requires forall k :: k in r && k !in canonical ==> r[k] == attrs[k]
    ensures r == Overridden(attrs, canonical)
  {
  }

  /** Overriding twice changes nothing more than overriding once. */
  lemma OverriddenIdempotent(attrs: Attrs, canonical: Attrs)
    ensures Overridden(Overridden(attrs, canonical), canonical) == Overridden(attrs, canonical)
  {
  }

  predicate Mismatch(attrs: Attrs, expected: Attrs, key: string, a: string)
  {
    key in expected && key in attrs && a in expected[key] && a in attrs[key] && attrs[key][a] != expected[key][a]
  }

  predicate Missing(attrs: Attrs, expected: Attrs, key: string, a: string)
  {
    key in expected && key in attrs && a in expected[key] && a !in attrs[key]
  }

  /** Every canonical key present in `attrs` holds every canonical property, with the canonical value. */
  predicate Consistent(attrs: Attrs, expected: Attrs)
  {
    forall key, a :: key in expected && key in attrs && a in expected[key] ==>
      a in attrs[key] && attrs[key][a] == expected[key][a]
  }

  /**
   * `check_attr`: failure exactly when the records are not consistent with the canonical list;
   * a differing property exits with status 1, an absent one raises KeyError. Which of several
   * offences is reported depends on the dictionaries' iteration order, which the model leaves open.
   */
  method CheckAttr(attrs: Attrs, expected: Attrs) returns (r: Result<(), Error>)
    ensures r.Ok? <==> Consistent(attrs, expected)
    ensures r.Err? ==>
              || (r.error == Exit(1) && exists key, a :: Mismatch(attrs, expected, key, a))
              || (r.error.KeyError? && exists key :: Missing(attrs, expected, key, r.error.key))
  {
    var keys := expected.Keys;
    while keys != {}
      invariant keys <= expected.Keys
      invariant forall key, a :: key in expected && key !in keys && key in attrs && a in expected[key] ==>
                  a in attrs[key] && attrs[key][a] == expected[key][a]
      decreases keys
    {
      var key :| key in keys;
      if key in attrs {
        var subs := expected[key].Keys;
        while subs != {}
          invariant subs <= expected[key].Keys
          invariant forall a :: a in expected[key] && a !in subs ==> a in attrs[key] && attrs[key][a] == expected[key][a]
          decreases subs
        {
          var a :| a in subs;
          if a !in attrs[key] {
            assert Missing(attrs, expected, key, a);
            return Err(KeyError(a));
          }
          if attrs[key][a] != expected[key][a] {
            assert Mismatch(attrs, expected, key, a);
            return Err(Exit(1));
          }
          subs := subs - {a};
        }
      }
      keys := keys - {key};
    }
    return Ok(());
  }

  /** Checking right after overriding can never fail: every canonical key present now holds the canonical record itself. */
  lemma CheckAfterOverride(attrs: Attrs, canonical: Attrs)
    ensures Consistent(Overridden(attrs, canonical), canonical)
  {
  }

  /**
   * `get_union_attrs`: the first-wins union of the files' records, overridden by the canonical
   * list; the check that follows always passes, so the result is never an exit.
   */
  method GetUnionAttrs(files: seq<Attrs>, canonical: Attrs) returns (r: Result<Attrs, Error>)
    ensures r == Ok(Overridden(FirstWins(files), canonical))
  {
    var union: Attrs := map[];
    for n := 0 to |files|
      invariant union == FirstWins(files[..n])
    {
      var attrs := files[n];
      ghost var init := union;
      var keys := attrs.Keys;
      while keys != {}
        invariant keys <= attrs.Keys
        invariant forall k :: k in union <==> k in init || (k in attrs && k !in keys)
        invariant forall k :: k in union ==> union[k] == if k in init then init[k] else attrs[k]
        decreases keys
      {
        var key :| key in keys;
        if key !in union {
          union := union[key := attrs[key]];
        }
        keys := keys - {key};
      }
      AddNewFrom(init, attrs, union);
      FirstWinsStep(files, n);
    }
    assert files[..|files|] == files;
    ghost var merged := union;
    union := OverrideAttr(union, canonical);
    OverriddenFrom(merged, canonical, union);
    var check := CheckAttr(union, canonical);
    CheckAfterOverride(FirstWins(files), canonical);
    if check.Err? {
      assert false;
    }
    return Ok(union);
  }


  // ---------------------------------------------------------------- rendering

  /** `get_value`: an integer becomes its decimal text; anything else passes through. */
  function GetValue(v: Value): (r: Value)
    ensures !r.Int?
  {
    if v.Int? then Str(IntToString(v.n)) else v
  }

  /** The text `get_value` gives an integer reads back as that integer; other values are unchanged. */
  lemma GetValueText(v: Value)
    ensures v.Int? && v.n >= 0 ==> var r := GetValue(v);
              r.Str? && (forall i :: 0 <= i < |r.s| ==> IsDigit(r.s[i])) && DigitsValue(r.s) == v.n
    ensures v.Int? && v.n < 0 ==> var r := GetValue(v);
              r.Str? && |r.s| > 1 && r.s[0] == '-'
              && (forall i :: 1 <= i < |r.s| ==> IsDigit(r.s[i])) && DigitsValue(r.s[1..]) == -v.n
    ensures !v.Int? ==> GetValue(v) == v
  {
    if v.Int? && v.n >= 0 {
      assert GetValue(v) == Str(NatToString(v.n));
      NatToStringRoundTrip(v.n);
    } else if v.Int? {
      var digits := NatToString(-v.n);
      var s := "-" + digits;
      assert GetValue(v) == Str(s);
      assert s[1..] == digits;
      NatToStringRoundTrip(-v.n);
    }
  }

  /** The column's record holds all four rendered properties. */
  predicate HasFields(attrs: Attrs, col: string)
  {
    && col in attrs
    && "display_name" in attrs[col] && "desc" in attrs[col] && "datatype" in attrs[col] && "priority" in attrs[col]
  }

  /** One property of every column, as `get_value` returns it. */
  function Column(attrs: Attrs, columns: seq<string>, f: string): (vs: seq<Value>)
    requires forall k :: 0 <= k < |columns| ==> HasFields(attrs, columns[k])
    requires IsField(f)
    ensures |vs| == |columns|
    ensures forall k :: 0 <= k < |vs| ==> !vs[k].Int?
    decreases |columns|
  {
    if |columns| == 0 then []
    else
      var n := |columns| - 1;
      assert HasFields(attrs, columns[n]);
      Column(attrs, columns[..n], f) + [GetValue(attrs[columns[n]][f])]
  }

  /** Entry `k` of a column is the property of table column `k`. */
  lemma {:induction false} ColumnAt(attrs: Attrs, columns: seq<string>, f: string, k: nat)
    requires forall j :: 0 <= j < |columns| ==> HasFields(attrs, columns[j])
    requires IsField(f) && k < |columns|
    ensures HasFields(attrs, columns[k]) && Column(attrs, columns, f)[k] == GetValue(attrs[columns[k]][f])
    decreases |columns|
  {
    var n := |columns| - 1;
    if k < n {
      ColumnAt(attrs, columns[..n], f, k);
      assert columns[..n][k] == columns[k];
    }
  }

  predicate Renderable(vs: seq<Value>)
  {
    forall k :: 0 <= k < |vs| ==> vs[k].Str?
  }

  function Texts(vs: seq<Value>): (ts: seq<string>)
    requires Renderable(vs)
    ensures |ts| == |vs|
  {
    seq(|vs|, k requires 0 <= k < |vs| => vs[k].s)
  }

  /** The position of the first item that is not a string: the one `str.join` stops at. */
  function FirstNonString(vs: seq<Value>): (k: nat)
    requires !Renderable(vs)
    ensures k < |vs| && !vs[k].Str?
    ensures forall j :: 0 <= j < k ==> vs[j].Str?
    decreases |vs|
  {
    if !vs[0].Str? then 0
    else
      assert !Renderable(vs[1..]) by {
        var k :| 0 <= k < |vs| && !vs[k].Str?;
        assert vs[1..][k - 1] == vs[k];
      }
      var k := FirstNonString(vs[1..]);
      assert forall j :: 0 < j <= k ==> vs[j] == vs[1..][j - 1];
      1 + k
  }

  /** The TypeError `str.join` raises at item `k`, naming its index and its type. */
  function JoinError(k: nat, v: Value): Error
  {
    TypeError("sequence item " + NatToString(k) + ": expected str instance, "
              + (if v.Int? then "int" else "NoneType") + " found")
  }

  /** The TypeError of a join over items that are not all strings. */
  function JoinFailure(vs: seq<Value>): Error
    requires !Renderable(vs)
  {
    JoinError(FirstNonString(vs), vs[FirstNonString(vs)])
  }

  /** `"\t".join(vs)`, which raises TypeError at the first item that is None. */
  function JoinValues(vs: seq<Value>): (r: Result<string, Error>)
    requires forall k :: 0 <= k < |vs| ==> !vs[k].Int?
    ensures r.Ok? <==> Renderable(vs)
    ensures r.Ok? ==> r.value == Join("\t", Texts(vs))
    ensures r.Err? ==> exists k :: 0 <= k < |vs| && vs[k].Null? && (forall j :: 0 <= j < k ==> vs[j].Str?)
                                    && r.error == TypeError("sequence item " + NatToString(k) + ": expected str instance, NoneType found")
  {
    if Renderable(vs) then Ok(Join("\t", Texts(vs)))
    else
      var k := FirstNonString(vs);
      assert JoinFailure(vs) == TypeError("sequence item " + NatToString(k) + ": expected str instance, NoneType found");
      Err(JoinFailure(vs))
  }

  /** One `#` line of the header: the properties, tab-separated. */
  function HeaderLine(vs: seq<Value>): string
    requires Renderable(vs)
  {
    "#" + Join("\t", Texts(vs))
  }

  /**
   * The four `#` lines built from the collected properties, or the TypeError of the first of the
   * four joins, in the source's order, that meets an item that is not a string.
   */
  function RenderHeader(names: seq<Value>, desc: seq<Value>, types: seq<Value>, prios: seq<Value>): Result<string, Error>
  {
    if !Renderable(names) then Err(JoinFailure(names))
    else if !Renderable(desc) then Err(JoinFailure(desc))
    else if !Renderable(types) then Err(JoinFailure(types))
    else if !Renderable(prios) then Err(JoinFailure(prios))
    else Ok(Unlines([HeaderLine(names), HeaderLine(desc), HeaderLine(types), HeaderLine(prios)]))
  }

  /** The key the lookups of one column miss first: the column itself, then its four properties in turn. */
  function MissingIn(attrs: Attrs, col: string): (m: Option<string>)
    ensures m.None? <==> HasFields(attrs, col)
    ensures m.Some? && col in attrs ==> IsField(m.value) && m.value !in attrs[col]
    ensures m.Some? && col !in attrs ==> m.value == col
  {
    if col !in attrs then Some(col)
    else if "display_name" !in attrs[col] then Some("display_name")
    else if "desc" !in attrs[col] then Some("desc")
    else if "datatype" !in attrs[col] then Some("datatype")
    else if "priority" !in attrs[col] then Some("priority")
    else None
  }

  /** The key the lookups over all columns, in order, miss first. */
  function FirstMissing(attrs: Attrs, columns: seq<string>): Option<string>
    decreases |columns|
  {
    if |columns| == 0 then None
    else
      var n := |columns| - 1;
      var m := FirstMissing(attrs, columns[..n]);
      if m.Some? then m else MissingIn(attrs, columns[n])
  }

  /** Nothing is missing exactly when every column has a record with all four properties. */
  lemma {:induction false} FirstMissingNone(attrs: Attrs, columns: seq<string>)
    ensures FirstMissing(attrs, columns).None? <==> forall k :: 0 <= k < |columns| ==> HasFields(attrs, columns[k])
    decreases |columns|
  {
    if |columns| > 0 {
      var n := |columns| - 1;
      FirstMissingNone(attrs, columns[..n]);
      assert forall k :: 0 <= k < n ==> columns[..n][k] == columns[k];
    }
  }

  /** A missing key belongs to the first column that lacks something. */
  lemma {:induction false} FirstMissingAt(attrs: Attrs, columns: seq<string>) returns (k: nat)
    requires FirstMissing(attrs, columns).Some?
    ensures k < |columns| && MissingIn(attrs, columns[k]) == FirstMissing(attrs, columns)
    ensures forall j :: 0 <= j < k ==> HasFields(attrs, columns[j])
    decreases |columns|
  {
    var n := |columns| - 1;
    if FirstMissing(attrs, columns[..n]).Some? {
      k := FirstMissingAt(attrs, columns[..n]);
      assert forall j :: 0 <= j <= k ==> columns[..n][j] == columns[j];
    } else {
      FirstMissingNone(attrs, columns[..n]);
      k := n;
      assert forall j :: 0 <= j < n ==> columns[..n][j] == columns[j];
    }
  }

  /**
   * What `create_portal_header` gives: KeyError for the first key the lookups miss, else the
   * rendering of the four properties of every column.
   */
  function PortalHeaderResult(attrs: Attrs, columns: seq<string>): Result<string, Error>
  {
    var missing := FirstMissing(attrs, columns);
    if missing.Some? then Err(KeyError(missing.value))
    else
      FirstMissingNone(attrs, columns);
      RenderHeader(Column(attrs, columns, "display_name"), Column(attrs, columns, "desc"),
                   Column(attrs, columns, "datatype"), Column(attrs, columns, "priority"))
  }

  /**
   * `create_portal_header`: for each table column, in order, its four properties. A column
   * without a record, or a record without a property, raises KeyError (lookups happen first, all
   * columns before any join); a property that is None raises TypeError at the join.
   */
  method CreatePortalHeader(attrs: Attrs, columns: seq<string>) returns (r: Result<string, Error>)
    ensures r == PortalHeaderResult(attrs, columns)
  {
    var displayNames: seq<Value> := [];
    var desc: seq<Value> := [];
    var datatypes: seq<Value> := [];
    var priority: seq<Value> := [];
    for k := 0 to |columns|
      invariant forall j :: 0 <= j < k ==> HasFields(attrs, columns[j])
      invariant FirstMissing(attrs, columns[..k]).None?
      invariant displayNames == Column(attrs, columns[..k], "display_name")
      invariant desc == Column(attrs, columns[..k], "desc")
      invariant datatypes == Column(attrs, columns[..k], "datatype")
      invariant priority == Column(attrs, columns[..k], "priority")
    {
      var col := columns[k];
      MissingStep(attrs, columns, k);
      // the four lookups of `clin_attrs[col][...]`, whichever fails first
      var missing := MissingIn(attrs, col);
      if missing.Some? {
        return Err(KeyError(missing.value));
      }
      ColumnStep(attrs, columns, k, "display_name");
      ColumnStep(attrs, columns, k, "desc");
      ColumnStep(attrs, columns, k, "datatype");
      ColumnStep(attrs, columns, k, "priority");
      var rec := attrs[col];
      displayNames := displayNames + [GetValue(rec["display_name"])];
      desc := desc + [GetValue(rec["desc"])];
      datatypes := datatypes + [GetValue(rec["datatype"])];
      priority := priority + [GetValue(rec["priority"])];
    }
    assert columns[..|columns|] == columns;
    PortalHeaderColumns(attrs, columns);
    var names :- JoinValues(displayNames);
    var descs :- JoinValues(desc);
    var types :- JoinValues(datatypes);
    var prios :- JoinValues(priority);
    var header := "#" + names + "\n";
    header := header + "#" + descs + "\n";
    header := header + "#" + types + "\n";
    header := header + "#" + prios + "\n";
    HeaderText(names, descs, types, prios);
    return Ok(header);
  }

  /** The header built line by line is the four `#` lines. */
  lemma HeaderText(a: string, b: string, c: string, d: string)
    ensures "#" + a + "\n" + "#" + b + "\n" + "#" + c + "\n" + "#" + d + "\n"
            == Unlines(["#" + a, "#" + b, "#" + c, "#" + d])
  {
    UnlinesFour("#" + a, "#" + b, "#" + c, "#" + d);
  }

  /** With every lookup succeeding, the header is the rendering of the four property columns. */
  lemma PortalHeaderColumns(attrs: Attrs, columns: seq<string>)
    requires forall k :: 0 <= k < |columns| ==> HasFields(attrs, columns[k])
    ensures PortalHeaderResult(attrs, columns)
            == RenderHeader(Column(attrs, columns, "display_name"), Column(attrs, columns, "desc"),
                            Column(attrs, columns, "datatype"), Column(attrs, columns, "priority"))
  {
    FirstMissingNone(attrs, columns);
  }

  /** The lookups of one more column: a key it misses is the first key all the columns miss. */
  lemma MissingStep(attrs: Attrs, columns: seq<string>, k: nat)
    requires k < |columns| && FirstMissing(attrs, columns[..k]).None?
    ensures FirstMissing(attrs, columns[..k + 1]) == MissingIn(attrs, columns[k])
    ensures MissingIn(attrs, columns[k]).Some? ==> FirstMissing(attrs, columns) == MissingIn(attrs, columns[k])
  {
    assert columns[..k + 1][..k] == columns[..k];
    if MissingIn(attrs, columns[k]).Some? {
      FirstMissingPrefix(attrs, columns, k + 1);
    }
  }

  /** One more column adds its property to the end of each header column. */
  lemma ColumnStep(attrs: Attrs, columns: seq<string>, k: nat, f: string)
    requires k < |columns| && forall j :: 0 <= j <= k ==> HasFields(attrs, columns[j])
    requires IsField(f)
    ensures Column(attrs, columns[..k + 1], f) == Column(attrs, columns[..k], f) + [GetValue(attrs[columns[k]][f])]
  {
    assert columns[..k + 1][..k] == columns[..k];
  }

  /** Once a prefix of the columns misses a key, so do all the columns, and the key is the same. */
  lemma {:induction false} FirstMissingPrefix(attrs: Attrs, columns: seq<string>, n: nat)
    requires n <= |columns| && FirstMissing(attrs, columns[..n]).Some?
    ensures FirstMissing(attrs, columns) == FirstMissing(attrs, columns[..n])
    decreases |columns|
  {
    if n < |columns| {
      var m := |columns| - 1;
      assert columns[..m][..n] == columns[..n];
      FirstMissingPrefix(attrs, columns[..m], n);
    } else {
      assert columns[..n] == columns;
    }
  }

  /** `str` of a cell: a string is itself, NaN prints as `nan`. */
  function CellStr(c: Cell): string
  {
    match c
    case Val(s) => s
    case NaN => "nan"
  }

  function RowText(row: Row): string
  {
    Join("\t", CellTexts(row))
  }

  /** The lines `create_data_rows` writes: the column keys, then one line per row. */
  function DataLines(t: Table): seq<string>
  {
    [Join("\t", t.columns)] + seq(|t.rows|, i requires 0 <= i < |t.rows| => RowText(t.rows[i]))
  }

  /** `create_data_rows`: the tab-joined column keys, then the stringified cells of each row, each line newline-terminated. */
  method CreateDataRows(t: Table) returns (s: string)
    ensures s == Unlines(DataLines(t))
  {
    s := Join("\t", t.columns) + "\n";
    assert s == Unlines(DataLines(t)[..1]);
    for i := 0 to |t.rows|
      invariant s == Unlines(DataLines(t)[..i + 1])
    {
      UnlinesAppend(DataLines(t)[..i + 1], RowText(t.rows[i]));
      assert DataLines(t)[..i + 2] == DataLines(t)[..i + 1] + [RowText(t.rows[i])];
      s := s + RowText(t.rows[i]) + "\n";
    }
    assert DataLines(t)[..|t.rows| + 1] == DataLines(t);
  }

  // ---------------------------------------------------------------- the rendered lines

  /** Rendered properties with no tab or line break in them. */
  predicate PlainValues(vs: seq<Value>)
  {
    forall k :: 0 <= k < |vs| ==> vs[k].Str? && '\t' !in vs[k].s && '\n' !in vs[k].s
  }

  /** A header line is one line, starts with `#`, and after it splits on tabs into the properties. */
  lemma HeaderLineFields(vs: seq<Value>)
    requires PlainValues(vs)
    ensures Renderable(vs)
    ensures '\n' !in HeaderLine(vs) && HeaderLine(vs)[0] == '#'
    ensures |vs| > 0 ==> Split(HeaderLine(vs)[1..], '\t') == Texts(vs)
  {
    var ts := Texts(vs);
    assert forall k :: 0 <= k < |ts| ==> '\t' !in ts[k] && '\n' !in ts[k];
    JoinHasNo("\t", ts, '\n');
    if |vs| > 0 {
      SplitJoin(ts, '\t');
    }
  }

  /** The header `create_portal_header` renders is exactly four lines, the `#` lines of the four properties in order. */
  lemma PortalHeaderLines(names: seq<Value>, desc: seq<Value>, types: seq<Value>, prios: seq<Value>)
    requires PlainValues(names) && PlainValues(desc) && PlainValues(types) && PlainValues(prios)
    ensures RenderHeader(names, desc, types, prios).Ok?
    ensures Split(RenderHeader(names, desc, types, prios).value, '\n')
            == [HeaderLine(names), HeaderLine(desc), HeaderLine(types), HeaderLine(prios), ""]
  {
    HeaderLineFields(names);
    HeaderLineFields(desc);
    HeaderLineFields(types);
    HeaderLineFields(prios);
    var lines := [HeaderLine(names), HeaderLine(desc), HeaderLine(types), HeaderLine(prios)];
    SplitUnlines(lines);
  }

  /**
   * Field `k` of a header line is column `k`'s property: its text, or an integer in decimal;
   * a rendered header has no missing (`None`) property.
   */
  lemma HeaderFieldAt(attrs: Attrs, columns: seq<string>, f: string, k: nat)
    requires forall j :: 0 <= j < |columns| ==> HasFields(attrs, columns[j])
    requires IsField(f) && k < |columns| && Renderable(Column(attrs, columns, f))
    ensures HasFields(attrs, columns[k])
    ensures !attrs[columns[k]][f].Null?
    ensures attrs[columns[k]][f].Str? ==> Texts(Column(attrs, columns, f))[k] == attrs[columns[k]][f].s
    ensures attrs[columns[k]][f].Int? ==> Texts(Column(attrs, columns, f))[k] == IntToString(attrs[columns[k]][f].n)
  {
    ColumnAt(attrs, columns, f, k);
  }

  /** Cells with no tab or line break in them. */
  predicate PlainTable(t: Table)
  {
    && (forall k :: 0 <= k < |t.columns| ==> '\t' !in t.columns[k] && '\n' !in t.columns[k])
    && (forall i, k :: 0 <= i < |t.rows| && 0 <= k < |t.rows[i]| ==>
          '\t' !in CellStr(t.rows[i][k]) && '\n' !in CellStr(t.rows[i][k]))
  }

  /** The cell texts of a row: its line splits back into them. */
  function CellTexts(row: Row): (ts: seq<string>)
    ensures |ts| == |row|
  {
    seq(|row|, k requires 0 <= k < |row| => CellStr(row[k]))
  }

  /**
   * The data rows are one line for the column keys and one per row, in order; with plain cells,
   * the first splits on tabs into the column keys and each other into the row's cell texts.
   */
  lemma DataRowsLines(t: Table)
    requires PlainTable(t) && |t.columns| > 0
    requires forall i :: 0 <= i < |t.rows| ==> |t.rows[i]| > 0
    ensures var pieces := Split(Unlines(DataLines(t)), '\n');
            && |pieces| == |t.rows| + 2 && pieces[|t.rows| + 1] == ""
            && Split(pieces[0], '\t') == t.columns
            && forall i :: 0 <= i < |t.rows| ==> Split(pieces[i + 1], '\t') == CellTexts(t.rows[i])
  {
    var lines := DataLines(t);
    PlainLine(t.columns);
    forall i | 0 <= i < |t.rows|
      ensures '\n' !in lines[i + 1] && Split(lines[i + 1], '\t') == CellTexts(t.rows[i])
    {
      PlainLine(CellTexts(t.rows[i]));
    }
    SplitUnlines(lines);
  }

  /** A tab-joined line of plain fields is one line that splits back into them. */
  lemma PlainLine(fields: seq<string>)
    requires |fields| > 0
    requires forall k :: 0 <= k < |fields| ==> '\t' !in fields[k] && '\n' !in fields[k]
    ensures '\n' !in Join("\t", fields) && Split(Join("\t", fields), '\t') == fields
  {
    JoinHasNo("\t", fields, '\n');
    SplitJoin(fields, '\t');
  }

  // ---------------------------------------------------------------- merging the tables

  /** Every frame read, after `df.fillna('')`. */
  function FilledAll(ts: seq<Table>): (r: seq<Table>)
    requires forall j :: 0 <= j < |ts| ==> WellFormed(ts[j])
    ensures |r| == |ts|
    ensures forall j :: 0 <= j < |ts| ==> r[j] == FillNa(ts[j], "") && WellFormed(r[j])
  {
    seq(|ts|, j requires 0 <= j < |ts| => FillNa(ts[j], ""))
  }

  /** The rows of the concatenated frames, in order, before any are dropped. */
  function Stacked(ts: seq<Table>): (c: Table)
    requires forall j :: 0 <= j < |ts| ==> WellFormed(ts[j])
    ensures WellFormed(c)
  {
    Concat(FilledAll(ts))
  }

  /** What `combine_files` gives: ValueError for no files, else the concatenation without rows identical in every column. */
  function Combined(ts: seq<Table>): (r: Result<Table, Error>)
    requires forall j :: 0 <= j < |ts| ==> WellFormed(ts[j])
    ensures r.Err? <==> |ts| == 0
    ensures r.Err? ==> r.error == ValueError(NO_OBJECTS)
    ensures r.Ok? ==> r.value.columns == Stacked(ts).columns
  {
    if |ts| == 0 then Err(ValueError(NO_OBJECTS))
    else
      Ok(DropDuplicates(Stacked(ts)))
  }

  /** `combine_files`: each frame filled and appended to a list, the list concatenated and deduplicated on whole rows. */
  method CombineFiles(ts: seq<Table>) returns (r: Result<Table, Error>)
    requires forall j :: 0 <= j < |ts| ==> WellFormed(ts[j])
    ensures r == Combined(ts)
  {
    var dfs: seq<Table> := [];
    for i := 0 to |ts|
      invariant |dfs| == i && forall j :: 0 <= j < i ==> dfs[j] == FillNa(ts[j], "")
    {
      var df := FillNa(ts[i], "");
      dfs := dfs + [df];
    }
    if |dfs| == 0 {
      return Err(ValueError(NO_OBJECTS));
    }
    assert dfs == FilledAll(ts);
    var c := Concat(dfs);
    return Ok(DropDuplicates(c));
  }

  /** With no two rows identical, `combine_files` keeps every row, whatever their SAMPLE_ID. */
  lemma CombineFilesKeepsDistinct(ts: seq<Table>)
    requires forall j :: 0 <= j < |ts| ==> WellFormed(ts[j])
    requires |ts| > 0
    requires forall i, j :: 0 <= i < j < |Stacked(ts).rows| ==> Stacked(ts).rows[i] != Stacked(ts).rows[j]
    ensures Combined(ts) == Ok(Stacked(ts))
  {
    DistinctFromNone(Stacked(ts).rows, WholeRow, {});
  }

  /**
   * Two files with the same two columns, each with one row for the same SAMPLE_ID but a
   * different second value: both rows survive, so the merged file lists that sample twice.
   */
  lemma CombineFilesKeepsSampleTwice(attr: string, sample: string, x: string, y: string)
    requires attr != "SAMPLE_ID" && x != y
    ensures var cols := ["SAMPLE_ID", attr];
            var a := Table(cols, [[Val(sample), Val(x)]]);
            var b := Table(cols, [[Val(sample), Val(y)]]);
            Combined([a, b]) == Ok(Table(cols, [[Val(sample), Val(x)], [Val(sample), Val(y)]]))
  {
    var cols := ["SAMPLE_ID", attr];
    var a := Table(cols, [[Val(sample), Val(x)]]);
    var b := Table(cols, [[Val(sample), Val(y)]]);
    assert NoDups(cols);
    FillNaIdle(a, "");
    FillNaIdle(b, "");
    assert FilledAll([a, b]) == [a, b];
    ConcatSameColumns([a, b], cols);
    assert [a, b][1..] == [b];
    assert AllRows([b]) == b.rows;
    assert AllRows([a, b]) == a.rows + b.rows;
    var rows := Stacked([a, b]).rows;
    assert rows == [[Val(sample), Val(x)], [Val(sample), Val(y)]];
    assert rows[0] != rows[1] by {
      assert rows[0][1] != rows[1][1];
    }
    CombineFilesKeepsDistinct([a, b]);
  }

  /** The column `combine_files_patient` deduplicates on. */
  const PATIENT_ID := "PATIENT_ID"

  /**
   * What `combine_files_patient` gives: the concatenation keeping the first row of each
   * PATIENT_ID. pandas returns an empty stack as it is before looking the column up; a stack with
   * data but no such column raises KeyError naming it.
   */
  function CombinedPatients(ts: seq<Table>): (r: Result<Table, Error>)
    requires forall j :: 0 <= j < |ts| ==> WellFormed(ts[j])
    ensures r.Err? <==> |ts| == 0 || (PATIENT_ID !in Stacked(ts).columns && !IsEmpty(Stacked(ts)))
    ensures r.Err? ==> r.error == if |ts| == 0 then ValueError(NO_OBJECTS) else KeyLabels({PATIENT_ID})
    ensures r.Ok? ==> r.value.columns == Stacked(ts).columns
    ensures |ts| > 0 && IsEmpty(Stacked(ts)) ==> r == Ok(Stacked(ts))
  {
    if |ts| == 0 then Err(ValueError(NO_OBJECTS))
    else
      var c := Stacked(ts);
      if IsEmpty(c) then Ok(c)
      else if PATIENT_ID !in c.columns then Err(KeyLabels({PATIENT_ID}))
      else Ok(DropDuplicatesOn(c, PATIENT_ID))
  }

  /** `combine_files_patient`: as `combine_files`, deduplicating on PATIENT_ID; a stack with data but without that column raises KeyError. */
  method CombineFilesPatient(ts: seq<Table>) returns (r: Result<Table, Error>)
    requires forall j :: 0 <= j < |ts| ==> WellFormed(ts[j])
    ensures r == CombinedPatients(ts)
  {
    var dfs: seq<Table> := [];
    for i := 0 to |ts|
      invariant |dfs| == i && forall j :: 0 <= j < i ==> dfs[j] == FillNa(ts[j], "")
    {
      var df := FillNa(ts[i], "");
      dfs := dfs + [df];
    }
    if |dfs| == 0 {
      return Err(ValueError(NO_OBJECTS));
    }
    assert dfs == FilledAll(ts);
    var c := Concat(dfs);
    if IsEmpty(c) {
      return Ok(c);
    }
    if PATIENT_ID !in c.columns {
      return Err(KeyLabels({PATIENT_ID}));
    }
    return Ok(DropDuplicatesOn(c, PATIENT_ID));
  }

  /**
   * The patient merge succeeds exactly when there are files and either some file has a
   * PATIENT_ID column, or no file has a row, or no file has a column.
   */
  lemma CombinePatientsNeedsColumn(ts: seq<Table>)
    requires forall j :: 0 <= j < |ts| ==> WellFormed(ts[j])
    ensures CombinedPatients(ts).Ok? <==>
              |ts| > 0 &&
              ((exists j :: 0 <= j < |ts| && PATIENT_ID in ts[j].columns)
               || (forall j :: 0 <= j < |ts| ==> |ts[j].rows| == 0)
               || (forall j :: 0 <= j < |ts| ==> |ts[j].columns| == 0))
  {
    var fs := FilledAll(ts);
    assert forall j :: 0 <= j < |ts| ==> fs[j].columns == ts[j].columns && |fs[j].rows| == |ts[j].rows|;
    ConcatEmpty(fs);
  }

  // ---------------------------------------------------------------- column order

  /**
   * The module-level list `COL_SAMPLES_ORDER`. `create_col_order` assigns it rather than a copy
   * to its local list when the attributes include SAMPLE_ID, so its appends land in this list
   * and outlive the call.
   */
  class SamplesOrder {
    var order: seq<string>

    constructor ()
      ensures order == ["SAMPLE_ID", "PATIENT_ID"]
    {
      order := ["SAMPLE_ID", "PATIENT_ID"];
    }

    /**
     * `create_col_order`: with SAMPLE_ID among the keys, the shared list grows by the keys it
     * lacks, in order, and is the result; without it, the keys once each in a fresh list.
     */
    method CreateColOrder(keys: seq<string>) returns (r: seq<string>)
      modifies this
      ensures "SAMPLE_ID" in keys ==> order == AppendNew(old(order), keys) && r == order
      ensures "SAMPLE_ID" !in keys ==> order == old(order) && r == AppendNew([], keys)
    {
      var shared := "SAMPLE_ID" in keys;
      var colOrder := if shared then order else [];
      ghost var start := colOrder;
      for i := 0 to |keys|
        invariant AppendNew(colOrder, keys[i..]) == AppendNew(start, keys)
        invariant shared ==> order == colOrder
        invariant !shared ==> order == old(order)
      {
        assert keys[i..][0] == keys[i] && keys[i..][1..] == keys[i + 1..];
        if keys[i] !in colOrder {
          colOrder := colOrder + [keys[i]];
          if shared {
            order := colOrder;
          }
        }
      }
      assert keys[|keys|..] == [];
      return colOrder;
    }
  }

  /** The first order from a fresh module: SAMPLE_ID, PATIENT_ID, then the other keys in order. */
  lemma ColOrderFirst(keys: seq<string>)
    requires NoDups(keys) && "SAMPLE_ID" in keys
    ensures var r := AppendNew(["SAMPLE_ID", "PATIENT_ID"], keys);
            && r[..2] == ["SAMPLE_ID", "PATIENT_ID"] && NoDups(r)
            && forall x :: x in r <==> x == "PATIENT_ID" || x in keys
  {
    assert NoDups(["SAMPLE_ID", "PATIENT_ID"]);
  }

  /** Without SAMPLE_ID the order is the keys themselves. */
  lemma ColOrderPlain(keys: seq<string>)
    requires NoDups(keys)
    ensures AppendNew([], keys) == keys
  {
    AppendNewFromEmpty(keys);
  }

  /**
   * Because the list is shared, a second call with SAMPLE_ID returns the keys of the first call
   * too: after `["SAMPLE_ID", a]`, the order for `["SAMPLE_ID", b]` holds `a`.
   */
  lemma ColOrderAccumulates(a: string, b: string)
    ensures var once := AppendNew(["SAMPLE_ID", "PATIENT_ID"], ["SAMPLE_ID", a]);
            a in AppendNew(once, ["SAMPLE_ID", b])
  {
  }

  // ---------------------------------------------------------------- copy-number and fusion matrices

  /** The frame `merge_cna_fusions` writes: the non-empty inputs side by side, NaN optionally as "NA", the index named Hugo_Symbol. */
  function CnaFusionsFrame(ys: seq<Indexed>, fillna: bool): (m: Indexed)
    requires forall j :: 0 <= j < |ys| ==> WellIndexed(ys[j])
    ensures |m.labels| == |m.body.rows|
  {
    var joined := ConcatColumns(ys);
    Indexed("Hugo_Symbol", joined.labels, if fillna then FillNa(joined.body, "NA") else joined.body)
  }

  /** What `merge_cna_fusions` returns: the empty string when no input has data (the ValueError is caught). */
  function CnaFusionsText(xs: seq<Indexed>, fillna: bool): string
    requires forall j :: 0 <= j < |xs| ==> WellIndexed(xs[j])
  {
    var ys := NonEmptyFrames(xs);
    NonEmptyWellIndexed(xs);
    if |ys| == 0 then "" else ToCsv(CnaFusionsFrame(ys, fillna))
  }

  /** `merge_cna_fusions`: non-empty frames appended to a list, joined along columns and written out. */
  method MergeCnaFusions(xs: seq<Indexed>, fillna: bool) returns (s: string)
    requires forall j :: 0 <= j < |xs| ==> WellIndexed(xs[j])
    ensures s == CnaFusionsText(xs, fillna)
  {
    var dfs := KeepNonEmpty(xs);
    if |dfs| == 0 {
      return "";
    }
    NonEmptyWellIndexed(xs);
    var mainDf := ConcatColumns(dfs);
    if fillna {
      mainDf := Indexed(mainDf.indexName, mainDf.labels, FillNa(mainDf.body, "NA"));
    }
    mainDf := Indexed("Hugo_Symbol", mainDf.labels, mainDf.body);
    s := ToCsv(mainDf);
  }

  /** The output is empty exactly when every input frame is empty. */
  lemma CnaFusionsEmpty(xs: seq<Indexed>, fillna: bool)
    requires forall j :: 0 <= j < |xs| ==> WellIndexed(xs[j])
    ensures CnaFusionsText(xs, fillna) == "" <==> forall j :: 0 <= j < |xs| ==> IsEmpty(xs[j].body)
  {
    NonEmptyNone(xs);
    var ys := NonEmptyFrames(xs);
    if |ys| > 0 {
      NonEmptyWellIndexed(xs);
      var m := CnaFusionsFrame(ys, fillna);
      var lines := [Join("\t", [m.indexName] + m.body.columns)] + CsvLines(m);
      UnlinesCons(lines, "");
      assert |ToCsv(m)| > 0;
    }
  }

  /**
   * The cell of gene `g` (a row label of the join) under column `k` of the `j`-th kept frame:
   * that frame's value for the gene, or NaN when the frame lacks the gene; with `fillna`, a NaN
   * becomes "NA".
   */
  lemma CnaFusionsCell(ys: seq<Indexed>, fillna: bool, i: nat, j: nat, k: nat)
    requires forall m :: 0 <= m < |ys| ==> WellIndexed(ys[m])
    requires j < |ys| && k < |ys[j].body.columns| && i < |CnaFusionsFrame(ys, fillna).labels|
    ensures var m := CnaFusionsFrame(ys, fillna); var g := m.labels[i]; var at := ColumnsBefore(ys, j) + k;
            && m.indexName == "Hugo_Symbol"
            && at < |m.body.columns| && m.body.columns[at] == ys[j].body.columns[k] && at < |m.body.rows[i]|
            && var c := if g in ys[j].labels then ys[j].body.rows[IndexOf(ys[j].labels, g)][k] else NaN;
               m.body.rows[i][at] == if fillna then FillCell(c, "NA") else c
  {
    var joined := ConcatColumns(ys);
    var g := joined.labels[i];
    JoinedRowAt(ys, g, j, k);
    assert joined.body.rows[i] == JoinedRow(ys, g);
  }

  /** The matrix has the header "Hugo_Symbol" and the columns of every kept frame, then one line per gene any of them has. */
  lemma CnaFusionsLines(ys: seq<Indexed>, fillna: bool)
    requires forall j :: 0 <= j < |ys| ==> WellIndexed(ys[j])
    requires PlainText(CnaFusionsFrame(ys, fillna))
    ensures var lines := Split(ToCsv(CnaFusionsFrame(ys, fillna)), '\n');
            && |lines| == 2 + |UnionLabels(ys)|
            && Split(lines[0], '\t') == ["Hugo_Symbol"] + JoinedColumns(ys)
            && forall g :: g in UnionLabels(ys) <==> exists j :: 0 <= j < |ys| && g in ys[j].labels
  {
    ToCsvLines(CnaFusionsFrame(ys, fillna));
  }

  // ---------------------------------------------------------------- mutation tables

  /** The message a Python set's `pop` raises KeyError with when the set is empty. */
  const EMPTY_POP := "pop from an empty set"

  /** The collection of mutation files, a Python set: `pop` takes out a member, which one is not fixed. */
  class FileSet {
    var files: seq<Indexed>

    constructor (files: seq<Indexed>)
      ensures this.files == files
    {
      this.files := files;
    }

    /** `set.pop()`: KeyError on an empty set, else some member, removed. */
    method Pop() returns (r: Result<Indexed, Error>)
      modifies this
      ensures old(files) == [] ==> r == Err(KeyError(EMPTY_POP)) && files == old(files)
      ensures old(files) != [] ==> r.Ok? && exists k :: 0 <= k < |old(files)| && r.value == old(files)[k]
                                                    && files == old(files)[..k] + old(files)[k + 1..]
    {
      if files == [] {
        return Err(KeyError(EMPTY_POP));
      }
      var k :| 0 <= k < |files|;
      r := Ok(files[k]);
      files := files[..k] + files[k + 1..];
    }
  }

  /** The header `return_only_header` writes: the column labels without the index column's. */
  function HeaderOnly(x: Indexed): string
  {
    Join("\t", x.body.columns) + "\n"
  }

  /** The header-only text is one line that splits into the frame's columns; the index column's name is not among them. */
  lemma HeaderOnlyLines(x: Indexed)
    requires |x.body.columns| > 0
    requires forall k :: 0 <= k < |x.body.columns| ==> '\t' !in x.body.columns[k] && '\n' !in x.body.columns[k]
    ensures var lines := Split(HeaderOnly(x), '\n');
            |lines| == 2 && lines[1] == "" && Split(lines[0], '\t') == x.body.columns
  {
    PlainLine(x.body.columns);
    SplitUnlines([Join("\t", x.body.columns)]);
    assert Unlines([Join("\t", x.body.columns)]) == HeaderOnly(x) by {
      assert [Join("\t", x.body.columns)][1..] == [];
    }
  }

  /** `return_only_header`: pops a file from the collection and returns its header; an empty collection raises KeyError. */
  method ReturnOnlyHeader(fs: FileSet) returns (r: Result<string, Error>)
    modifies fs
    ensures old(fs.files) == [] ==> r == Err(KeyError(EMPTY_POP)) && fs.files == old(fs.files)
    ensures old(fs.files) != [] ==> exists k :: 0 <= k < |old(fs.files)| && r == Ok(HeaderOnly(old(fs.files)[k]))
                                                && fs.files == old(fs.files)[..k] + old(fs.files)[k + 1..]
  {
    var f :- fs.Pop();
    return Ok(HeaderOnly(f));
  }

  /** The frame `merge_mutations` writes: the non-empty inputs stacked, NaN optionally as "NA". */
  function MutationsFrame(ys: seq<Indexed>, fillna: bool): (m: Indexed)
    requires forall j :: 0 <= j < |ys| ==> WellIndexed(ys[j])
    ensures |m.labels| == |m.body.rows|
  {
    var stacked := ConcatIndexed(ys);
    if fillna then Indexed(stacked.indexName, stacked.labels, FillNa(stacked.body, "NA")) else stacked
  }

  /** The identifying columns a frame lacks: `duplicated` raises them all in one KeyError. */
  function AbsentUniqCols(t: Table): set<string>
  {
    set k | k in DATA_MUTATIONS_UNIQ_COLS && k !in t.columns
  }

  /**
   * The stacked frame written out, when `drop_duplicates(subset=DATA_MUTATIONS_UNIQ_COLS)` does
   * not raise: it raises KeyError naming every listed column that is missing, and its result is
   * discarded. It is reached only with frames that have data, so pandas' shortcut for an empty
   * frame does not arise.
   */
  function MutationsResult(ys: seq<Indexed>, fillna: bool): (r: Result<string, Error>)
    requires forall j :: 0 <= j < |ys| ==> WellIndexed(ys[j])
  {
    var m := MutationsFrame(ys, fillna);
    var absent := AbsentUniqCols(m.body);
    if absent != {} then Err(KeyLabels(absent)) else Ok(ToCsv(m))
  }

  /**
   * `merge_mutations`: the non-empty frames stacked and written out; when none has data the
   * ValueError is caught and the header of a file popped from the collection is returned.
   */
  method MergeMutations(fs: FileSet, fillna: bool) returns (r: Result<string, Error>)
    requires forall j :: 0 <= j < |fs.files| ==> WellIndexed(fs.files[j])
    modifies fs
    ensures var ys := NonEmptyFrames(old(fs.files));
            ys != [] ==> r == MutationsResult(ys, fillna) && fs.files == old(fs.files)
    ensures old(fs.files) == [] ==> r == Err(KeyError(EMPTY_POP)) && fs.files == old(fs.files)
    ensures old(fs.files) != [] && NonEmptyFrames(old(fs.files)) == [] ==>
              exists k :: 0 <= k < |old(fs.files)| && r == Ok(HeaderOnly(old(fs.files)[k]))
                          && fs.files == old(fs.files)[..k] + old(fs.files)[k + 1..]
  {
    var xs := fs.files;
    var dfs := KeepNonEmpty(xs);
    if |dfs| == 0 {
      r := ReturnOnlyHeader(fs);
      return;
    }
    NonEmptyWellIndexed(xs);
    r := WriteMutations(dfs, fillna);
  }

  /** The stacking, filling, column check and writing of `merge_mutations`, once some frame has data. */
  method WriteMutations(dfs: seq<Indexed>, fillna: bool) returns (r: Result<string, Error>)
    requires forall j :: 0 <= j < |dfs| ==> WellIndexed(dfs[j])
    ensures r == MutationsResult(dfs, fillna)
  {
    var mainDf := ConcatIndexed(dfs);
    if fillna {
      mainDf := Indexed(mainDf.indexName, mainDf.labels, FillNa(mainDf.body, "NA"));
    }
    // `drop_duplicates` looks the identifying columns up, and its result is dropped
    var absent := AbsentUniqCols(mainDf.body);
    if absent != {} {
      return Err(KeyLabels(absent));
    }
    return Ok(ToCsv(mainDf));
  }

  /**
   * The deduplication can fail but never removes a row: the stack fails exactly when some
   * identifying column is in no frame, and the KeyError names exactly those columns.
   */
  lemma MutationsNeedColumns(ys: seq<Indexed>, fillna: bool)
    requires forall j :: 0 <= j < |ys| ==> WellIndexed(ys[j])
    ensures MutationsResult(ys, fillna).Ok? <==>
              forall k :: 0 <= k < |DATA_MUTATIONS_UNIQ_COLS| ==>
                exists j :: 0 <= j < |ys| && DATA_MUTATIONS_UNIQ_COLS[k] in ys[j].body.columns
    ensures var r := MutationsResult(ys, fillna);
            r.Err? ==> r.error.KeyLabels? &&
                       forall c :: c in r.error.labels <==>
                         c in DATA_MUTATIONS_UNIQ_COLS && forall j :: 0 <= j < |ys| ==> c !in ys[j].body.columns
  {
    StackedHasAll(ys, fillna);
    var absent := AbsentUniqCols(MutationsFrame(ys, fillna).body);
    if absent == {} {
      forall k | 0 <= k < |DATA_MUTATIONS_UNIQ_COLS|
        ensures DATA_MUTATIONS_UNIQ_COLS[k] in MutationsFrame(ys, fillna).body.columns
      {
        assert DATA_MUTATIONS_UNIQ_COLS[k] !in absent;
      }
    }
  }

  /** The stack has a column exactly when some frame has it. */
  lemma StackedHasAll(ys: seq<Indexed>, fillna: bool)
    requires forall j :: 0 <= j < |ys| ==> WellIndexed(ys[j])
    ensures forall c :: c in MutationsFrame(ys, fillna).body.columns <==> exists j :: 0 <= j < |ys| && c in ys[j].body.columns
  {
    var bodies := Bodies(ys);
    assert MutationsFrame(ys, fillna).body.columns == UnionColumns(bodies);
  }

  /**
   * Every row of every kept frame is written, none dropped by the deduplication: one line per
   * row of the stack, row `i` of the `j`-th frame realigned to the union of the columns at
   * position `RowsBefore + i`, with its own label; with `fillna` each of its NaN cells is "NA".
   */
  lemma MutationsKeepEveryRow(ys: seq<Indexed>, fillna: bool, j: nat, i: nat)
    requires forall m :: 0 <= m < |ys| ==> WellIndexed(ys[m])
    requires j < |ys| && i < |ys[j].labels|
    ensures var m := MutationsFrame(ys, fillna); var at := RowsBefore(Bodies(ys), j) + i;
            && |m.labels| == TotalRows(Bodies(ys))
            && at < |m.labels|
            && (!fillna ==> m.body.rows[at] == Align(ys[j].body.columns, ys[j].body.rows[i], m.body.columns))
            && (fillna ==> var a := Align(ys[j].body.columns, ys[j].body.rows[i], m.body.columns);
                           |m.body.rows[at]| == |a| && forall k :: 0 <= k < |a| ==> m.body.rows[at][k] == FillCell(a[k], "NA"))
  {
    var bodies := Bodies(ys);
    AllRectangular(bodies);
    StackRowsAt(bodies, UnionColumns(bodies), j, i);
    AllLabelsCount(ys);
    assert MutationsFrame(ys, true).body == FillNa(MutationsFrame(ys, false).body, "NA");
  }

  // ---------------------------------------------------------------- the merged clinical file

  /** A clinical file of the merge: its stored text, and the table `pd.read_csv` reads from it below the `#` lines. */
  datatype ClinicalFile = ClinicalFile(text: string, table: Table)

  /** The texts `open(clin_file, 'r')` hands over: each file's line breaks translated by universal newlines. */
  function FileTexts(files: seq<ClinicalFile>): (r: seq<string>)
    ensures |r| == |files| && forall i :: 0 <= i < |files| ==> r[i] == UniversalNewlines(files[i].text)
  {
    seq(|files|, i requires 0 <= i < |files| => UniversalNewlines(files[i].text))
  }

  function FileTables(files: seq<ClinicalFile>): (r: seq<Table>)
    ensures |r| == |files| && forall i :: 0 <= i < |files| ==> r[i] == files[i].table
  {
    seq(|files|, i requires 0 <= i < |files| => files[i].table)
  }

  predicate TablesRead(files: seq<ClinicalFile>)
  {
    forall i :: 0 <= i < |files| ==> WellFormed(files[i].table)
  }

  /** Every file has its five head lines. */
  predicate HeadsRead(files: seq<ClinicalFile>)
  {
    forall i :: 0 <= i < |files| ==> ReadAttrs(UniversalNewlines(files[i].text)).Ok?
  }

  /** The records of every file, in file order. */
  function FileAttrs(files: seq<ClinicalFile>): (r: seq<Attrs>)
    requires HeadsRead(files)
    ensures |r| == |files|
  {
    seq(|files|, i requires 0 <= i < |files| => ReadAttrs(UniversalNewlines(files[i].text)).value)
  }

  /** The header for the merged table's columns, then its data rows. */
  function Rendered(attrs: Attrs, merged: Result<Table, Error>): Result<string, Error>
  {
    var t :- merged;
    var header :- PortalHeaderResult(attrs, t.columns);
    Ok(header + Unlines(DataLines(t)))
  }

  /**
   * What `run_merge` (or, with `patient`, `run_merge_patient`) gives: IndexError when some file
   * lacks its head lines, else the reconciled records rendered over the merged table.
   */
  function MergeResult(files: seq<ClinicalFile>, canonical: Attrs, patient: bool): Result<string, Error>
    requires TablesRead(files)
  {
    if !HeadsRead(files) then Err(IndexError)
    else
      var attrs := Overridden(FirstWins(FileAttrs(files)), canonical);
      var ts := FileTables(files);
      Rendered(attrs, if patient then CombinedPatients(ts) else Combined(ts))
  }

  /** `run_merge`: the records, their reconciliation, the merged sample table, its header and rows. */
  method RunMerge(files: seq<ClinicalFile>, canonical: Attrs) returns (r: Result<string, Error>)
    requires TablesRead(files)
    ensures r == MergeResult(files, canonical, false)
  {
    var byFile :- GetClinicalAttrs(FileTexts(files));
    assert byFile == FileAttrs(files);
    var union := GetUnionAttrs(byFile, canonical);
    var clinAttrs := union.value;  // the check after the override never exits
    var combined :- CombineFiles(FileTables(files));
    var header :- CreatePortalHeader(clinAttrs, combined.columns);
    var data := CreateDataRows(combined);
    return Ok(header + data);
  }

  /** `run_merge_patient`: as `run_merge`, with the patient table deduplicated on PATIENT_ID. */
  method RunMergePatient(files: seq<ClinicalFile>, canonical: Attrs) returns (r: Result<string, Error>)
    requires TablesRead(files)
    ensures r == MergeResult(files, canonical, true)
  {
    var byFile :- GetClinicalAttrs(FileTexts(files));
    assert byFile == FileAttrs(files);
    var union := GetUnionAttrs(byFile, canonical);
    var clinAttrs := union.value;  // the check after the override never exits
    var combined :- CombineFilesPatient(FileTables(files));
    var header :- CreatePortalHeader(clinAttrs, combined.columns);
    var data := CreateDataRows(combined);
    return Ok(header + data);
  }

  /**
   * The merged file is the four `#` lines, then the column keys, then one line per merged row:
   * every line its own, when no property, column key or cell holds a tab or line break.
   */
  lemma MergedLines(attrs: Attrs, t: Table)
    requires PortalHeaderResult(attrs, t.columns).Ok?
    ensures forall k :: 0 <= k < |t.columns| ==> HasFields(attrs, t.columns[k])
    ensures var names := Column(attrs, t.columns, "display_name"); var desc := Column(attrs, t.columns, "desc");
            var types := Column(attrs, t.columns, "datatype"); var prios := Column(attrs, t.columns, "priority");
            && Renderable(names) && Renderable(desc) && Renderable(types) && Renderable(prios)
            && Rendered(attrs, Ok(t)) == Ok(Unlines([HeaderLine(names), HeaderLine(desc), HeaderLine(types), HeaderLine(prios)] + DataLines(t)))
  {
    FirstMissingNone(attrs, t.columns);
    var names := Column(attrs, t.columns, "display_name");
    var desc := Column(attrs, t.columns, "desc");
    var types := Column(attrs, t.columns, "datatype");
    var prios := Column(attrs, t.columns, "priority");
    UnlinesConcat([HeaderLine(names), HeaderLine(desc), HeaderLine(types), HeaderLine(prios)], DataLines(t));
  }
}
