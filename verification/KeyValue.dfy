/** Lines of key=value fields: what the loops over the fields of a line leave behind, and how
    such a line is printed. */
module KeyValue {
  import opened Basics
  import opened Text

  ghost predicate HasField(field: string, key: string, v: string) {
    Cut(field, '=') == Some((key, v))
  }

  /** The last field with this key: every key's value is overwritten by a later one. */
  function LastValue(fields: seq<string>, key: string): Option<string> {
    if fields == [] then None
    else
      var kv := Cut(fields[|fields| - 1], '=');
      if kv.Some? && kv.value.0 == key then Some(kv.value.1) else LastValue(fields[..|fields| - 1], key)
  }

  /** The last field with this key whose value is a number. */
  function LastNumber(fields: seq<string>, key: string): Option<int> {
    if fields == [] then None
    else
      var kv := Cut(fields[|fields| - 1], '=');
      if kv.Some? && kv.value.0 == key && Atoi(kv.value.1).Some? then Atoi(kv.value.1)
      else LastNumber(fields[..|fields| - 1], key)
  }

  /** Reading one more field. */
  lemma LastValueStep(fields: seq<string>, n: nat, key: string)
    requires n < |fields|
    ensures LastValue(fields[..n + 1], key)
            == var kv := Cut(fields[n], '=');
               if kv.Some? && kv.value.0 == key then Some(kv.value.1) else LastValue(fields[..n], key)
    ensures LastNumber(fields[..n + 1], key)
            == var kv := Cut(fields[n], '=');
               if kv.Some? && kv.value.0 == key && Atoi(kv.value.1).Some? then Atoi(kv.value.1)
               else LastNumber(fields[..n], key)
  {
    assert fields[..n + 1][..n] == fields[..n];
  }

  /** i is the last field with this key. */
  ghost predicate LastWithKey(fields: seq<string>, key: string, i: int) {
    && 0 <= i < |fields|
    && forall j, v | i < j < |fields| :: !HasField(fields[j], key, v)
  }

  lemma {:induction false} LastValueMeaning(fields: seq<string>, key: string) returns (i: int)
    requires LastValue(fields, key).Some?
    ensures LastWithKey(fields, key, i) && HasField(fields[i], key, LastValue(fields, key).value)
  {
    var n := |fields| - 1;
    var kv := Cut(fields[n], '=');
    if kv.Some? && kv.value.0 == key {
      i := n;
    } else {
      i := LastValueMeaning(fields[..n], key);
      assert forall j | 0 <= j < n :: fields[j] == fields[..n][j];
    }
  }

  lemma {:induction false} LastNumberMeaning(fields: seq<string>, key: string) returns (i: int, v: string)
    requires LastNumber(fields, key).Some?
    ensures 0 <= i < |fields| && HasField(fields[i], key, v) && Atoi(v) == LastNumber(fields, key)
  {
    var n := |fields| - 1;
    var kv := Cut(fields[n], '=');
    if kv.Some? && kv.value.0 == key && Atoi(kv.value.1).Some? {
      i, v := n, kv.value.1;
    } else {
      i, v := LastNumberMeaning(fields[..n], key);
    }
  }

  /* ---------------------------------------------------------------- printing */

  function KV(k: string, v: string): string {
    k + ['='] + v
  }

  function Keyed(keys: seq<string>, vals: seq<string>): (words: seq<string>)
    requires |keys| == |vals|
    ensures |words| == |keys|
    ensures forall i | 0 <= i < |keys| :: words[i] == KV(keys[i], vals[i])
  {
    seq(|keys|, i requires 0 <= i < |keys| => KV(keys[i], vals[i]))
  }

  ghost predicate Keys(keys: seq<string>) {
    && (forall i | 0 <= i < |keys| :: Word(keys[i]) && '=' !in keys[i])
    && (forall i, j | 0 <= i < j < |keys| :: keys[i] != keys[j])
  }

  lemma {:induction false} KeyedLastValue(keys: seq<string>, vals: seq<string>, i: nat)
    requires |keys| == |vals| && Keys(keys) && i < |keys|
    ensures LastValue(Keyed(keys, vals), keys[i]) == Some(vals[i])
    ensures Atoi(vals[i]).Some? ==> LastNumber(Keyed(keys, vals), keys[i]) == Atoi(vals[i])
  {
    var n := |keys| - 1;
    CutPair(keys[n], vals[n], '=');
    assert Cut(KV(keys[n], vals[n]), '=') == Some((keys[n], vals[n]));
    hide KV;
    KeyedInit(keys, vals);
    if i < n {
      KeyedLastValue(keys[..n], vals[..n], i);
    }
  }

  lemma KeyedInit(keys: seq<string>, vals: seq<string>)
    requires |keys| == |vals| && keys != []
    ensures var n := |keys| - 1;
            Keyed(keys, vals)[..n] == Keyed(keys[..n], vals[..n])
  {
  }

  lemma KeyedWords(keys: seq<string>, vals: seq<string>)
    requires |keys| == |vals| && Keys(keys)
    requires forall i | 0 <= i < |vals| :: SpaceFree(vals[i])
    ensures forall i | 0 <= i < |keys| :: Word(Keyed(keys, vals)[i])
  {
  }
}
