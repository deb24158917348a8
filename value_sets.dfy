/**
 * `get_values`, which the meta, case-list and segment mergers each define identically: it folds
 * a list of parsed YAML documents into one dictionary from every key to the set of values the
 * documents give it. Then the step those mergers share: overwriting chosen keys with the
 * `;`-join of their value sets.
 */
module ValueSets {
  import opened Results
  import opened Text

  /** A parsed YAML document: each key with its value. */
  type Doc = map<string, string>

  /** Every key some document has. */
  function KeysOf(docs: seq<Doc>): set<string>
  {
    set i, k | 0 <= i < |docs| && k in docs[i] :: k
  }

  /** Every value the documents give `key`. */
  function ValuesOf(docs: seq<Doc>, key: string): set<string>
  {
    set i | 0 <= i < |docs| && key in docs[i] :: docs[i][key]
  }

  lemma KeysOfSnoc(docs: seq<Doc>, m: Doc)
    ensures KeysOf(docs + [m]) == KeysOf(docs) + m.Keys
  {
    var all := docs + [m];
    forall k | k in KeysOf(all)
      ensures k in KeysOf(docs) + m.Keys
    {
      var i :| 0 <= i < |all| && k in all[i];
      if i < |docs| {
        assert all[i] == docs[i];
      }
    }
    forall k | k in KeysOf(docs) + m.Keys
      ensures k in KeysOf(all)
    {
      if k in m {
        assert all[|docs|] == m;
      } else {
        var i :| 0 <= i < |docs| && k in docs[i];
        assert all[i] == docs[i];
      }
    }
  }

  lemma ValuesOfSnoc(docs: seq<Doc>, m: Doc, key: string)
    ensures ValuesOf(docs + [m], key) == ValuesOf(docs, key) + (if key in m then {m[key]} else {})
  {
    var all := docs + [m];
    forall v | v in ValuesOf(all, key)
      ensures v in ValuesOf(docs, key) + (if key in m then {m[key]} else {})
    {
      var i :| 0 <= i < |all| && key in all[i] && all[i][key] == v;
      if i < |docs| {
        assert all[i] == docs[i];
      }
    }
    forall v | v in ValuesOf(docs, key)
      ensures v in ValuesOf(all, key)
    {
      var i :| 0 <= i < |docs| && key in docs[i] && docs[i][key] == v;
      assert all[i] == docs[i];
    }
    if key in m {
      assert all[|docs|] == m;
    }
  }

  /** The dictionary after the keys of one more document. */
  lemma GetValuesStep(docs: seq<Doc>, n: nat, d: map<string, set<string>>)
    requires n < |docs|
    requires forall k :: k in d <==> k in KeysOf(docs[..n]) || k in docs[n]
    requires forall k :: k in d ==> d[k] == ValuesOf(docs[..n], k) + (if k in docs[n] then {docs[n][k]} else {})
    ensures d.Keys == KeysOf(docs[..n + 1])
    ensures forall k :: k in d ==> d[k] == ValuesOf(docs[..n + 1], k)
  {
    assert docs[..n + 1] == docs[..n] + [docs[n]];
    KeysOfSnoc(docs[..n], docs[n]);
    forall k | k in d
      ensures d[k] == ValuesOf(docs[..n + 1], k)
    {
      ValuesOfSnoc(docs[..n], docs[n], k);
    }
  }

  /** `get_values`: every key of every document, mapped to the set of the values it is given. */
  method GetValues(docs: seq<Doc>) returns (d: map<string, set<string>>)
    ensures d.Keys == KeysOf(docs)
    ensures forall k :: k in d ==> d[k] == ValuesOf(docs, k)
  {
    d := map[];
    for n := 0 to |docs|
      invariant d.Keys == KeysOf(docs[..n])
      invariant forall k :: k in d ==> d[k] == ValuesOf(docs[..n], k)
    {
      var data := docs[n];
      var keys := data.Keys;
      while keys != {}
        invariant keys <= data.Keys
        invariant forall k :: k in d <==> k in KeysOf(docs[..n]) || (k in data && k !in keys)
        invariant forall k :: k in d ==>
                    d[k] == ValuesOf(docs[..n], k) + (if k in data && k !in keys then {data[k]} else {})
        decreases keys
      {
        var key :| key in keys;
        if key !in d {
          d := d[key := {}];
        }
        d := d[key := d[key] + {data[key]}];
        keys := keys - {key};
      }
      GetValuesStep(docs, n, d);
    }
    assert docs[..|docs|] == docs;
  }

  /** Each value set is non-empty: a key is in the result only because some document gives it a value. */
  lemma ValuesOfPresent(docs: seq<Doc>, key: string)
    requires key in KeysOf(docs)
    ensures ValuesOf(docs, key) != {}
  {
    var i, k :| 0 <= i < |docs| && k in docs[i] && k == key;
    assert docs[i][key] in ValuesOf(docs, key);
  }

  /** Documents that agree on a key give it exactly their common value. */
  lemma ValuesOfAgreeing(docs: seq<Doc>, key: string, v: string)
    requires key in KeysOf(docs)
    requires forall i :: 0 <= i < |docs| && key in docs[i] ==> docs[i][key] == v
    ensures ValuesOf(docs, key) == {v}
  {
    ValuesOfPresent(docs, key);
  }

  /**
   * `for key in keys: d[key] = ";".join(d[key])`: each of `keys`, in order, must be present
   * (the first missing one raises KeyError); each becomes the join of its set in some order.
   */
  method JoinKeys(d: map<string, set<string>>, keys: seq<string>) returns (r: Result<map<string, string>, Error>)
    ensures r.Ok? <==> forall j :: 0 <= j < |keys| ==> keys[j] in d
    ensures r.Err? ==> FirstNotIn(d.Keys, keys).Some? && r.error == KeyError(FirstNotIn(d.Keys, keys).value)
    ensures r.Ok? ==> r.value.Keys == set j | 0 <= j < |keys| :: keys[j]
    ensures r.Ok? ==> forall k :: k in r.value ==> k in d && JoinedFrom(r.value[k], ";", d[k])
  {
    var out := map[];
    for n := 0 to |keys|
      invariant forall j :: 0 <= j < n ==> keys[j] in d
      invariant out.Keys == set j | 0 <= j < n :: keys[j]
      invariant forall k :: k in out ==> k in d && JoinedFrom(out[k], ";", d[k])
    {
      if keys[n] !in d {
        FirstNotInAt(d.Keys, keys, n);
        return Err(KeyError(keys[n]));
      }
      var joined := JoinSet(";", d[keys[n]]);
      out := out[keys[n] := joined];
    }
    return Ok(out);
  }

  /** Documents that agree on a key: the join of its value set is their common value. */
  lemma JoinedAgreeing(docs: seq<Doc>, key: string, v: string, sep: string, r: string)
    requires key in KeysOf(docs)
    requires forall i :: 0 <= i < |docs| && key in docs[i] ==> docs[i][key] == v
    requires JoinedFrom(r, sep, ValuesOf(docs, key))
    ensures r == v
  {
    ValuesOfAgreeing(docs, key, v);
    JoinedSingleton(r, sep, v);
  }

  /**
   * Documents that disagree on a key are not an error: the join holds every value given, and
   * splitting it at the separator gives two pieces or more.
   */
  lemma JoinedDisagreeing(docs: seq<Doc>, key: string, sep: char, r: string, a: nat, b: nat)
    requires a < |docs| && b < |docs| && key in docs[a] && key in docs[b] && docs[a][key] != docs[b][key]
    requires forall i :: 0 <= i < |docs| && key in docs[i] ==> sep !in docs[i][key]
    requires JoinedFrom(r, [sep], ValuesOf(docs, key))
    ensures docs[a][key] in Split(r, sep) && docs[b][key] in Split(r, sep)
    ensures |Split(r, sep)| >= 2
  {
    var values := ValuesOf(docs, key);
    assert docs[a][key] in values && docs[b][key] in values;
    JoinedSplit(r, sep, values);
    var parts := Split(r, sep);
    var p :| 0 <= p < |parts| && parts[p] == docs[a][key];
    var q :| 0 <= q < |parts| && parts[q] == docs[b][key];
    assert p != q;
  }

  // ---------------------------------------------------------------- meta files

  /** One line of a meta file, as `"key: %s\n" % value` writes it, without the newline. */
  function Entry(key: string, value: string): string
  {
    key + ": " + value
  }

  function EntryLines(entries: seq<(string, string)>): (r: seq<string>)
    ensures |r| == |entries|
    ensures forall i :: 0 <= i < |entries| ==> r[i] == Entry(entries[i].0, entries[i].1)
  {
    seq(|entries|, i requires 0 <= i < |entries| => Entry(entries[i].0, entries[i].1))
  }

  /** A meta file written by successive `s += "key: %s\n" % value`, one per entry. */
  function MetaText(entries: seq<(string, string)>): string
  {
    Unlines(EntryLines(entries))
  }

  predicate PlainEntries(entries: seq<(string, string)>)
  {
    forall i :: 0 <= i < |entries| ==> '\n' !in entries[i].0 && '\n' !in entries[i].1
  }

  /** A meta file of newline-free keys and values has one line per entry, in order, and nothing after the last newline. */
  lemma MetaTextLines(entries: seq<(string, string)>)
    requires PlainEntries(entries)
    ensures Split(MetaText(entries), '\n') == EntryLines(entries) + [""]
  {
    SplitUnlines(EntryLines(entries));
  }

  /** The first line of a meta file is its first entry, whatever the later entries hold. */
  lemma MetaTextFirstLine(entries: seq<(string, string)>)
    requires |entries| > 0 && '\n' !in entries[0].0 && '\n' !in entries[0].1
    ensures Split(MetaText(entries), '\n')[0] == Entry(entries[0].0, entries[0].1)
  {
    var lines := EntryLines(entries);
    assert EntryLines(entries[1..]) == lines[1..];
    SplitAtSeparator(lines[0], '\n', Unlines(lines[1..]));
  }

  /** The entries of `keys`, in order, with their values in `data`. */
  function Picked(data: map<string, string>, keys: seq<string>): (r: seq<(string, string)>)
    requires forall j :: 0 <= j < |keys| ==> keys[j] in data
    ensures |r| == |keys| && forall j :: 0 <= j < |keys| ==> r[j] == (keys[j], data[keys[j]])
  {
    seq(|keys|, j requires 0 <= j < |keys| => (keys[j], data[keys[j]]))
  }

  /** `"k: %s\n" % data['k']` for each of `keys` in order: the first key missing raises KeyError. */
  function RenderKeys(data: map<string, string>, keys: seq<string>): (r: Result<string, Error>)
    ensures r.Ok? <==> forall j :: 0 <= j < |keys| ==> keys[j] in data
    ensures r.Err? ==> FirstNotIn(data.Keys, keys).Some? && r.error == KeyError(FirstNotIn(data.Keys, keys).value)
  {
    match FirstNotIn(data.Keys, keys)
    case Some(k) => Err(KeyError(k))
    case None => Ok(MetaText(Picked(data, keys)))
  }

  /** A rendering of newline-free keys and values has one `key: value` line per key, in the order of `keys`. */
  lemma RenderKeysLines(data: map<string, string>, keys: seq<string>)
    requires forall j :: 0 <= j < |keys| ==> keys[j] in data && '\n' !in keys[j] && '\n' !in data[keys[j]]
    ensures RenderKeys(data, keys).Ok?
    ensures var lines := Split(RenderKeys(data, keys).value, '\n');
            && |lines| == |keys| + 1 && lines[|keys|] == ""
            && forall j :: 0 <= j < |keys| ==> lines[j] == Entry(keys[j], data[keys[j]])
  {
    MetaTextLines(Picked(data, keys));
  }
}
