/**
 * The column values the binlog decoder hands over, as Python objects, and the
 * pure helpers applied to them before any SQL is written: the recursive
 * bytes-to-str conversion, `json.dumps(v, ensure_ascii=False)` for
 * structured values and `repr` for strings.
 */
module Values {
  import opened Common
  import opened Utf8

  /**
   * A Python value as found in a row image. Values whose textual form is
   * produced by Python's `str()` (int, float, Decimal, time, timedelta, set
   * and similar) are carried as that text in `Scalar`; `date` and
   * `datetime` values, which the SQL builders quote, as `str(v)` in `Temporal`.
   */
  datatype PyValue =
    | Null
    | Bool(b: bool)
    | Scalar(text: string)
    | Text(s: string)
    | Bytes(raw: seq<byte>)
    | Temporal(text: string)
    | List(items: seq<PyValue>)
    | Dict(entries: seq<(PyValue, PyValue)>)

  /** The values `json.dumps` is applied to: `dict` and `list`. */
  predicate IsStructured(v: PyValue) {
    v.List? || v.Dict?
  }

  /** No `bytes` object anywhere inside `v`. */
  predicate Decoded(v: PyValue) {
    match v
    case Bytes(_) => false
    case List(items) => forall i :: 0 <= i < |items| ==> Decoded(items[i])
    case Dict(entries) =>
      forall i :: 0 <= i < |entries| ==> Decoded(entries[i].0) && Decoded(entries[i].1)
    case _ => true
  }

  /** Every `bytes` object inside `v` is well-formed UTF-8. */
  predicate Decodable(v: PyValue) {
    match v
    case Bytes(raw) => Decode(raw).Some?
    case List(items) => forall i :: 0 <= i < |items| ==> Decodable(items[i])
    case Dict(entries) =>
      forall i :: 0 <= i < |entries| ==> Decodable(entries[i].0) && Decodable(entries[i].1)
    case _ => true
  }

  /** A value after conversion, ready to be rendered. */
  type Cell = v: PyValue | Decoded(v) witness Null

  /**
   * The keys of a dict, in insertion order. Dict keys are Python values
   * (a `bytes` key among them), not the column names `SqlText.Columns` lists.
   */
  function KeysOf(d: seq<(PyValue, PyValue)>): (r: seq<PyValue>)
    ensures |r| == |d|
    ensures forall i :: 0 <= i < |d| ==> r[i] == d[i].0
  {
    if d == [] then [] else [d[0].0] + KeysOf(d[1..])
  }

  predicate DistinctKeys(d: seq<(PyValue, PyValue)>) {
    forall i, j :: 0 <= i < j < |d| ==> d[i].0 != d[j].0
  }

  /** Every dictionary inside `v` has distinct keys, as a Python `dict` does. */
  predicate WellFormed(v: PyValue) {
    match v
    case List(items) => forall i :: 0 <= i < |items| ==> WellFormed(items[i])
    case Dict(entries) =>
      && DistinctKeys(entries)
      && forall i :: 0 <= i < |entries| ==> WellFormed(entries[i].0) && WellFormed(entries[i].1)
    case _ => true
  }

  /**
   * `d[k] = x` on a dictionary kept as its items in insertion order: an
   * existing key keeps its place and takes the new value, a new key goes last.
   */
  function DictPut(d: seq<(PyValue, PyValue)>, k: PyValue, x: PyValue): (r: seq<(PyValue, PyValue)>)
    ensures k in KeysOf(d) ==> KeysOf(r) == KeysOf(d)
    ensures k !in KeysOf(d) ==> KeysOf(r) == KeysOf(d) + [k]
  {
    if d == [] then [(k, x)]
    else if d[0].0 == k then [(k, x)] + d[1..]
    else [d[0]] + DictPut(d[1..], k, x)
  }

  /** The stored pair is in the result, and every other entry was already in `d`. */
  lemma {:induction false} DictPutMembers(d: seq<(PyValue, PyValue)>, k: PyValue, x: PyValue)
    ensures (k, x) in DictPut(d, k, x)
    ensures forall e :: e in DictPut(d, k, x) ==> e == (k, x) || e in d
  {
    if d != [] && d[0].0 != k {
      DictPutMembers(d[1..], k, x);
    }
  }

  /** Storing a key keeps the keys distinct. */
  lemma DictPutDistinct(d: seq<(PyValue, PyValue)>, k: PyValue, x: PyValue)
    requires DistinctKeys(d)
    ensures DistinctKeys(DictPut(d, k, x))
  {
    var r := DictPut(d, k, x);
    var keys := KeysOf(d);
    forall i, j | 0 <= i < j < |r| ensures r[i].0 != r[j].0 {
      assert r[i].0 == KeysOf(r)[i] && r[j].0 == KeysOf(r)[j];
      if j < |d| {
        assert KeysOf(r)[i] == keys[i] && KeysOf(r)[j] == keys[j];
      } else {
        assert KeysOf(r)[i] == keys[i] && KeysOf(r)[j] == k && keys[i] in keys;
      }
    }
  }

  /**
   * `convert_bytes_to_str`: decodes every `bytes` object inside `v` as UTF-8,
   * recursing into lists and into both keys and values of dictionaries.
   * `None` is the `UnicodeDecodeError` raised by an undecodable byte string.
   */
  function ConvertBytesToStr(v: PyValue): (r: Option<PyValue>)
    ensures r.Some? <==> Decodable(v)
    ensures r.Some? ==> Decoded(r.value) && WellFormed(r.value)
    ensures v.Bytes? && r.Some? ==> r.value == Text(Decode(v.raw).value)
    ensures !v.Bytes? && !v.List? && !v.Dict? ==> r == Some(v)
    decreases v, 2
  {
    match v
    case Bytes(raw) =>
      (match Decode(raw)
       case Some(s) => Some(Text(s))
       case None => None)
    case List(items) =>
      (match ConvertItems(items)
       case Some(xs) => Some(List(xs))
       case None => None)
    case Dict(entries) =>
      (match ConvertEntries(v, |entries|)
       case Some(es) => Some(Dict(es))
       case None => None)
    case _ => Some(v)
  }

  /** A list converts to the list of its items' conversions, a dict to the dict its comprehension builds. */
  lemma ConvertStructure(v: PyValue)
    requires ConvertBytesToStr(v).Some?
    ensures v.List? ==> ConvertBytesToStr(v).value == List(ConvertItems(v.items).value)
    ensures v.Dict? ==> ConvertBytesToStr(v).value == Dict(ConvertEntries(v, |v.entries|).value)
    ensures v.Dict? ==> ConvertBytesToStr(v).value == Dict(PutAll(ConvertPairs(v, |v.entries|).value))
  {
  }

  /** The list comprehension over `items`. */
  function ConvertItems(items: seq<PyValue>): (r: Option<seq<PyValue>>)
    ensures r.Some? <==> forall i :: 0 <= i < |items| ==> Decodable(items[i])
    ensures r.Some? ==> |r.value| == |items|
    ensures r.Some? ==> forall i :: 0 <= i < |items| ==> ConvertBytesToStr(items[i]) == Some(r.value[i])
  {
    if items == [] then Some([])
    else
      match ConvertBytesToStr(items[0])
      case None => None
      case Some(x) =>
        match ConvertItems(items[1..])
        case None => None
        case Some(xs) => Some([x] + xs)
  }

  /**
   * The dictionary comprehension over the first `n` items of `d`: each
   * converted key is stored in turn, so two keys that convert to the same
   * string collapse into one entry.
   */
  function ConvertEntries(d: PyValue, n: nat): (r: Option<seq<(PyValue, PyValue)>>)
    requires d.Dict? && n <= |d.entries|
    ensures r.Some? <==> forall i :: 0 <= i < n ==> Decodable(d.entries[i].0) && Decodable(d.entries[i].1)
    ensures r.Some? ==> DistinctKeys(r.value)
    ensures r.Some? ==> forall e :: e in r.value ==> Decoded(e.0) && Decoded(e.1) && WellFormed(e.0) && WellFormed(e.1)
    decreases d, 1
  {
    match ConvertPairs(d, n)
    case None => None
    case Some(ps) =>
      PutAllKeys(ps);
      PutAllEntries(ps);
      Some(PutAll(ps))
  }

  /**
   * The key and value of each of the first `n` entries of `d`, converted,
   * in order; `None` when one of them raises.
   */
  function ConvertPairs(d: PyValue, n: nat): (r: Option<seq<(PyValue, PyValue)>>)
    requires d.Dict? && n <= |d.entries|
    ensures r.Some? <==> forall i :: 0 <= i < n ==> Decodable(d.entries[i].0) && Decodable(d.entries[i].1)
    ensures r.Some? ==> |r.value| == n
    ensures r.Some? ==> forall e :: e in r.value ==> Decoded(e.0) && Decoded(e.1) && WellFormed(e.0) && WellFormed(e.1)
    decreases d, 0, n
  {
    if n == 0 then Some([])
    else
      var e := d.entries[n - 1];
      assert e in d.entries;
      EntriesDecodableSnoc(d, n);
      match ConvertPairs(d, n - 1)
      case None => None
      case Some(acc) =>
        match ConvertBytesToStr(e.0)
        case None => None
        case Some(k) =>
          match ConvertBytesToStr(e.1)
          case None => None
          case Some(x) => Some(acc + [(k, x)])
  }

  /** The first `n` entries decode when the first `n - 1` do and entry `n - 1` does. */
  lemma EntriesDecodableSnoc(d: PyValue, n: nat)
    requires d.Dict? && 0 < n <= |d.entries|
    ensures (forall i :: 0 <= i < n ==> Decodable(d.entries[i].0) && Decodable(d.entries[i].1))
        <==> (forall i :: 0 <= i < n - 1 ==> Decodable(d.entries[i].0) && Decodable(d.entries[i].1)) &&
             Decodable(d.entries[n - 1].0) && Decodable(d.entries[n - 1].1)
  {
  }

  lemma {:induction false} DictPutNewKey(d: seq<(PyValue, PyValue)>, k: PyValue, x: PyValue)
    requires k !in KeysOf(d)
    ensures DictPut(d, k, x) == d + [(k, x)]
  {
    if d != [] {
      assert KeysOf(d) == [d[0].0] + KeysOf(d[1..]);
      DictPutNewKey(d[1..], k, x);
    }
  }

  /** Values that hold no `bytes` come back unchanged from the conversion. */
  lemma {:induction false} ConvertDecodedIsIdentity(v: PyValue)
    requires Decoded(v) && WellFormed(v)
    ensures ConvertBytesToStr(v) == Some(v)
    decreases v, 2
  {
    match v
    case List(items) => ConvertItemsIdentity(items);
    case Dict(entries) =>
      ConvertEntriesIdentity(v, |entries|);
      assert entries[..|entries|] == entries;
    case _ =>
  }

  lemma {:induction false} ConvertItemsIdentity(items: seq<PyValue>)
    requires forall i :: 0 <= i < |items| ==> Decoded(items[i]) && WellFormed(items[i])
    ensures ConvertItems(items) == Some(items)
  {
    if items != [] {
      ConvertDecodedIsIdentity(items[0]);
      ConvertItemsIdentity(items[1..]);
      assert [items[0]] + items[1..] == items;
    }
  }

  lemma ConvertEntriesIdentity(d: PyValue, n: nat)
    requires d.Dict? && n <= |d.entries| && Decoded(d) && WellFormed(d)
    ensures ConvertEntries(d, n) == Some(d.entries[..n])
    decreases d, 1
  {
    ConvertPairsIdentity(d, n);
    PutAllDistinct(d.entries[..n]);
  }

  lemma {:induction false} ConvertPairsIdentity(d: PyValue, n: nat)
    requires d.Dict? && n <= |d.entries| && Decoded(d) && WellFormed(d)
    ensures ConvertPairs(d, n) == Some(d.entries[..n])
    decreases d, 0, n
  {
    if n > 0 {
      var e := d.entries[n - 1];
      assert e in d.entries;
      ConvertDecodedIsIdentity(e.0);
      ConvertDecodedIsIdentity(e.1);
      ConvertPairsIdentity(d, n - 1);
      assert d.entries[..n] == d.entries[..n - 1] + [e];
    }
  }

  /** Storing pairs whose keys are already distinct gives back those pairs. */
  lemma {:induction false} PutAllDistinct(ps: seq<(PyValue, PyValue)>)
    requires DistinctKeys(ps)
    ensures PutAll(ps) == ps
  {
    if ps != [] {
      var init, last := ps[..|ps| - 1], ps[|ps| - 1];
      assert DistinctKeys(init) by {
        forall i, j | 0 <= i < j < |init| ensures init[i].0 != init[j].0 {
          assert init[i] == ps[i] && init[j] == ps[j];
        }
      }
      PutAllDistinct(init);
      LastKeyIsNew(ps, |ps|);
      DictPutNewKey(init, last.0, last.1);
      assert init + [last] == ps;
    }
  }

  lemma LastKeyIsNew(entries: seq<(PyValue, PyValue)>, n: nat)
    requires DistinctKeys(entries) && 0 < n <= |entries|
    ensures entries[n - 1].0 !in KeysOf(entries[..n - 1])
  {
    var acc := entries[..n - 1];
    forall i | 0 <= i < |acc| ensures KeysOf(acc)[i] != entries[n - 1].0 {
      assert acc[i] == entries[i];
    }
  }

  /** Stores each pair of `ps` in turn into an empty dict. */
  function PutAll(ps: seq<(PyValue, PyValue)>): seq<(PyValue, PyValue)> {
    if ps == [] then []
    else DictPut(PutAll(ps[..|ps| - 1]), ps[|ps| - 1].0, ps[|ps| - 1].1)
  }

  /** No pair after `ps[i]` has its key: `ps[i]` is the last store under that key. */
  predicate StoredLast(ps: seq<(PyValue, PyValue)>, i: int)
    requires 0 <= i < |ps|
  {
    forall j :: i < j < |ps| ==> ps[j].0 != ps[i].0
  }

  /** Storing `ps` in turn gives distinct keys, which are exactly the keys stored. */
  lemma {:induction false} PutAllKeys(ps: seq<(PyValue, PyValue)>)
    ensures DistinctKeys(PutAll(ps))
    ensures forall k :: k in KeysOf(PutAll(ps)) <==> exists i :: 0 <= i < |ps| && ps[i].0 == k
  {
    if ps != [] {
      var init, last := ps[..|ps| - 1], ps[|ps| - 1];
      PutAllKeys(init);
      var acc := PutAll(init);
      assert PutAll(ps) == DictPut(acc, last.0, last.1);
      DictPutDistinct(acc, last.0, last.1);
      forall k ensures k in KeysOf(PutAll(ps)) <==> exists i :: 0 <= i < |ps| && ps[i].0 == k {
        if k == last.0 {
          assert ps[|ps| - 1].0 == k;
        } else {
          assert k in KeysOf(PutAll(ps)) <==> k in KeysOf(acc);
          if k in KeysOf(acc) {
            var i :| 0 <= i < |init| && init[i].0 == k;
            assert ps[i] == init[i];
          }
          if exists i :: 0 <= i < |ps| && ps[i].0 == k {
            var i :| 0 <= i < |ps| && ps[i].0 == k;
            assert i != |ps| - 1;
            assert init[i] == ps[i];
          }
        }
      }
    }
  }

  /** Every entry of the dict built by storing `ps` in turn is the last pair stored under its key. */
  lemma {:induction false} PutAllEntries(ps: seq<(PyValue, PyValue)>)
    ensures forall e :: e in PutAll(ps) ==> exists i :: 0 <= i < |ps| && ps[i] == e && StoredLast(ps, i)
  {
    if ps != [] {
      var init, last := ps[..|ps| - 1], ps[|ps| - 1];
      PutAllEntries(init);
      PutAllKeys(ps);
      var acc := PutAll(init);
      var r := PutAll(ps);
      assert r == DictPut(acc, last.0, last.1);
      DictPutMembers(acc, last.0, last.1);
      forall e | e in r ensures exists i :: 0 <= i < |ps| && ps[i] == e && StoredLast(ps, i) {
        if e.0 == last.0 {
          var a :| 0 <= a < |r| && r[a] == e;
          var b :| 0 <= b < |r| && r[b] == (last.0, last.1);
          assert a == b;
          assert ps[|ps| - 1] == e && StoredLast(ps, |ps| - 1);
        } else {
          assert e in acc;
          var i :| 0 <= i < |init| && init[i] == e && StoredLast(init, i);
          StoredLastSnoc(ps, i);
        }
      }
    }
  }

  /** A store that was last among all but the final pair stays last when the final pair has another key. */
  lemma StoredLastSnoc(ps: seq<(PyValue, PyValue)>, i: int)
    requires 0 <= i < |ps| - 1 && StoredLast(ps[..|ps| - 1], i)
    requires ps[|ps| - 1].0 != ps[i].0
    ensures StoredLast(ps, i)
  {
    forall j | i < j < |ps| ensures ps[j].0 != ps[i].0 {
      if j < |ps| - 1 {
        assert ps[..|ps| - 1][j] == ps[j];
      }
    }
  }

  /** Pair `i` is entry `i` with its key and its value converted. */
  lemma {:induction false} ConvertPairsAt(d: PyValue, n: nat)
    requires d.Dict? && n <= |d.entries| && ConvertPairs(d, n).Some?
    ensures forall i :: 0 <= i < n ==>
              ConvertPairs(d, n).value[i] == (ConvertBytesToStr(d.entries[i].0).value, ConvertBytesToStr(d.entries[i].1).value)
  {
    if n > 0 {
      EntriesDecodableSnoc(d, n);
      ConvertPairsAt(d, n - 1);
      var e := d.entries[n - 1];
      var init, ps := ConvertPairs(d, n - 1).value, ConvertPairs(d, n).value;
      assert ps == init + [(ConvertBytesToStr(e.0).value, ConvertBytesToStr(e.1).value)];
      forall i | 0 <= i < n
        ensures ps[i] == (ConvertBytesToStr(d.entries[i].0).value, ConvertBytesToStr(d.entries[i].1).value)
      {
        if i < n - 1 {
          assert ps[i] == init[i];
        }
      }
    }
  }

  /** Every pair stored last under its key is in the dict. */
  lemma PutAllCompleteness(ps: seq<(PyValue, PyValue)>)
    ensures forall i :: 0 <= i < |ps| && StoredLast(ps, i) ==> ps[i] in PutAll(ps)
  {
    PutAllKeys(ps);
    PutAllEntries(ps);
    var r := PutAll(ps);
    forall i | 0 <= i < |ps| && StoredLast(ps, i) ensures ps[i] in r {
      assert ps[i].0 in KeysOf(r);
      var a :| 0 <= a < |r| && KeysOf(r)[a] == ps[i].0;
      assert r[a] in r;
      var i' :| 0 <= i' < |ps| && ps[i'] == r[a] && StoredLast(ps, i');
      assert i' == i;
    }
  }

  /**
   * What the dictionary comprehension builds: its keys are the converted
   * keys, and its entries are exactly the converted pairs that no later
   * entry's converted key overrides.
   */
  lemma ConvertEntriesLastWins(d: PyValue, n: nat)
    requires d.Dict? && n <= |d.entries| && ConvertEntries(d, n).Some?
    ensures var ps := ConvertPairs(d, n).value;
            forall k :: k in KeysOf(ConvertEntries(d, n).value) <==> exists i :: 0 <= i < |ps| && ps[i].0 == k
    ensures var ps := ConvertPairs(d, n).value;
            forall e :: e in ConvertEntries(d, n).value <==> exists i :: 0 <= i < |ps| && ps[i] == e && StoredLast(ps, i)
  {
    var ps := ConvertPairs(d, n).value;
    assert ConvertEntries(d, n).value == PutAll(ps);
    PutAllLastWins(ps);
  }

  /** The keys of the dict built by storing `ps` in turn are the keys stored; its entries are the last stores. */
  lemma PutAllLastWins(ps: seq<(PyValue, PyValue)>)
    ensures forall k :: k in KeysOf(PutAll(ps)) <==> exists i :: 0 <= i < |ps| && ps[i].0 == k
    ensures forall e :: e in PutAll(ps) <==> exists i :: 0 <= i < |ps| && ps[i] == e && StoredLast(ps, i)
  {
    PutAllKeys(ps);
    PutAllEntries(ps);
    PutAllCompleteness(ps);
  }

  /** Converting twice is converting once. */
  lemma ConvertIdempotent(v: PyValue)
    requires ConvertBytesToStr(v).Some?
    ensures ConvertBytesToStr(ConvertBytesToStr(v).value) == ConvertBytesToStr(v)
  {
    ConvertDecodedIsIdentity(ConvertBytesToStr(v).value);
  }

  /**
   * A `str` key and a `bytes` key holding the same text collapse into one
   * entry, which keeps the first key's place and the last key's value.
   */
  lemma ConvertMergesCollidingKeys()
    ensures ConvertBytesToStr(Dict([(Text("a"), Scalar("1")), (Bytes([0x61]), Scalar("2"))]))
         == Some(Dict([(Text("a"), Scalar("2"))]))
  {
    var d := Dict([(Text("a"), Scalar("1")), (Bytes([0x61]), Scalar("2"))]);
    assert Decode([0x61]) == Some("a") by {
      var b: seq<byte> := [0x61];
      assert DecodeOne(b) == Some(('a', 1));
      assert b[1..] == [] && Decode([]) == Some("");
      assert Decode(b) == Some(['a'] + "");
      assert ['a'] + "" == "a";
    }
    var p1, p2 := (Text("a"), Scalar("1")), (Text("a"), Scalar("2"));
    assert ConvertPairs(d, 1) == Some([p1]) by {
      assert ConvertPairs(d, 0) == Some([]);
      assert ConvertBytesToStr(Text("a")) == Some(Text("a"));
      assert ConvertBytesToStr(Scalar("1")) == Some(Scalar("1"));
      assert [] + [p1] == [p1];
    }
    var ps := [p1, p2];
    assert ConvertPairs(d, 2) == Some(ps) by {
      assert ConvertBytesToStr(Bytes([0x61])) == Some(Text("a"));
      assert ConvertBytesToStr(Scalar("2")) == Some(Scalar("2"));
      assert [p1] + [p2] == ps;
    }
    assert PutAll(ps) == [(Text("a"), Scalar("2"))] by {
      assert ps[..1] == [(Text("a"), Scalar("1"))];
      assert PutAll(ps[..1]) == [(Text("a"), Scalar("1"))] by {
        assert ps[..1][..0] == [];
      }
      assert DictPut([(Text("a"), Scalar("1"))], Text("a"), Scalar("2")) == [(Text("a"), Scalar("2"))];
    }
    assert ConvertEntries(d, 2) == Some([(Text("a"), Scalar("2"))]);
  }

  /**
   * `json.dumps(v, ensure_ascii=False)` with its default separators. Its
   * internals are not what this model is about: no property below depends on
   * this text beyond its being a function of `v`.
   */
  function JsonText(v: PyValue): string
    requires Decoded(v)
    decreases v, 1
  {
    match v
    case Null => "null"
    case Bool(b) => if b then "true" else "false"
    case Scalar(text) => text
    case Text(s) => JsonString(s)
    case Temporal(text) => JsonString(text)
    case List(items) => "[" + Join(", ", JsonItems(items)) + "]"
    case Dict(entries) => "{" + Join(", ", JsonMembers(v, |entries|)) + "}"
  }

  function JsonItems(items: seq<PyValue>): (r: seq<string>)
    requires forall i :: 0 <= i < |items| ==> Decoded(items[i])
    ensures |r| == |items|
  {
    if items == [] then [] else [JsonText(items[0])] + JsonItems(items[1..])
  }

  function JsonMembers(d: PyValue, n: nat): (r: seq<string>)
    requires d.Dict? && Decoded(d) && n <= |d.entries|
    ensures |r| == n
    decreases d, 0, n
  {
    if n == 0 then []
    else
      var e := d.entries[n - 1];
      assert e in d.entries;
      JsonMembers(d, n - 1) + [JsonKey(e.0) + ": " + JsonText(e.1)]
  }

  /** A dictionary key as `json.dumps` writes it: always a JSON string. */
  function JsonKey(k: PyValue): string {
    match k
    case Text(s) => JsonString(s)
    case Null => "\"null\""
    case Bool(b) => if b then "\"true\"" else "\"false\""
    case Scalar(text) => JsonString(text)
    case Temporal(text) => JsonString(text)
    case _ => "\"\""
  }

  function JsonString(s: string): string {
    "\"" + JsonEscape(s) + "\""
  }

  /** The escapes `json.dumps` applies when `ensure_ascii` is off. */
  function JsonEscape(s: string): string {
    if s == [] then ""
    else
      var c := s[0];
      var e :=
        if c == '"' then "\\\""
        else if c == '\\' then "\\\\"
        else if c == '\n' then "\\n"
        else if c == '\r' then "\\r"
        else if c == '\t' then "\\t"
        else if c == 8 as char then "\\b"
        else if c == 12 as char then "\\f"
        else if (c as int) < 0x20 then "\\u00" + [HexDigit(c as int / 16), HexDigit(c as int % 16)]
        else [c];
      e + JsonEscape(s[1..])
  }

  /** `repr(s)` for a `str`: single quotes unless `s` holds a single quote and no double quote. */
  function PyRepr(s: string): string {
    var q := if '\'' in s && '"' !in s then '"' else '\'';
    [q] + ReprEscape(s, q) + [q]
  }

  /**
   * The code points `str.isprintable` rejects, as far as they do not depend
   * on the Unicode version: control characters (Cc), the space separators
   * other than the space itself (Zs), the line and paragraph separators
   * (Zl, Zp), the format characters (Cf), the private-use areas (Co), the
   * noncharacters, and the unassigned blocks of planes 4 to 14. Surrogates
   * (Cs) are not values of `char`.
   */
  predicate NonPrintable(c: char) {
    var n := c as int;
    || n < 0x20 || 0x7F <= n <= 0xA0 || n == 0xAD
    || 0x600 <= n <= 0x605 || n == 0x61C || n == 0x6DD || n == 0x70F || n == 0x890 || n == 0x891
    || n == 0x8E2 || n == 0x1680 || n == 0x180E
    || 0x2000 <= n <= 0x200F || 0x2028 <= n <= 0x202F || 0x205F <= n <= 0x206F
    || n == 0x3000 || 0xE000 <= n <= 0xF8FF || 0xFDD0 <= n <= 0xFDEF || n == 0xFEFF || 0xFFF9 <= n <= 0xFFFB
    || n % 0x10000 >= 0xFFFE
    || n == 0x110BD || n == 0x110CD || 0x13430 <= n <= 0x1343F || 0x1BCA0 <= n <= 0x1BCA3
    || 0x1D173 <= n <= 0x1D17A || 0x40000 <= n <= 0xE00FF || 0xE01F0 <= n
  }

  /** `n` as exactly `width` lowercase hexadecimal digits (`n` is below 16 to the `width`). */
  function Hex(n: nat, width: nat): (r: string)
    ensures |r| == width
  {
    if width == 0 then "" else Hex(n / 16, width - 1) + [HexDigit(n % 16)]
  }

  /** The escape `repr` writes for `c`, or `c` itself. */
  function ReprChar(c: char, q: char): string {
    var n := c as int;
    if c == '\\' then "\\\\"
    else if c == q then ['\\', q]
    else if c == '\n' then "\\n"
    else if c == '\r' then "\\r"
    else if c == '\t' then "\\t"
    else if !NonPrintable(c) then [c]
    else if n <= 0xFF then "\\x" + Hex(n, 2)
    else if n <= 0xFFFF then "\\u" + Hex(n, 4)
    else "\\U" + Hex(n, 8)
  }

  function ReprEscape(s: string, q: char): (r: string)
    ensures |r| >= |s|
  {
    if s == [] then "" else ReprChar(s[0], q) + ReprEscape(s[1..], q)
  }

  /** Printable text with neither a backslash nor the quote comes out of `repr` unchanged. */
  lemma {:induction false} ReprPlain(s: string, q: char)
    requires forall i :: 0 <= i < |s| ==> s[i] != '\\' && s[i] != q && !NonPrintable(s[i])
    ensures ReprEscape(s, q) == s
  {
    if s != [] {
      ReprPlain(s[1..], q);
      assert [s[0]] + s[1..] == s;
    }
  }

  /** Every escape starts with a backslash, and only escapes do. */
  lemma ReprCharEscapes(c: char, q: char)
    ensures ReprChar(c, q) == [c] || (|ReprChar(c, q)| >= 2 && ReprChar(c, q)[0] == '\\')
    ensures ReprChar(c, q) == [c] <==> c != '\\' && c != q && !NonPrintable(c)
  {
  }

  /** A no-break space in a name is written `\xa0`, as `repr` does. */
  lemma ReprNoBreakSpace(q: char)
    requires q == '\'' || q == '"'
    ensures ReprChar(0xA0 as char, q) == "\\xa0"
  {
    assert Hex(0xA0, 2) == Hex(10, 1) + [HexDigit(0)];
    assert Hex(10, 1) == "" + [HexDigit(10)];
  }

  /** `str(names)` for a `list` of `str`: `['a', 'b']`. */
  function PyListRepr(names: seq<string>): string {
    "[" + Join(", ", ReprAll(names)) + "]"
  }

  function ReprAll(names: seq<string>): (r: seq<string>)
    ensures |r| == |names|
    ensures forall i :: 0 <= i < |names| ==> r[i] == PyRepr(names[i])
  {
    if names == [] then [] else [PyRepr(names[0])] + ReprAll(names[1..])
  }
}
