/**
 * The JSON sanitiser of the utilities module over a model of the Python values it
 * meets: dicts and lists are rebuilt recursively, JSON scalars pass through, and
 * anything else is replaced by its `str()`.
 */
module JsonValue {
  /** A Python value as the sanitiser sees it. A dict is its items in insertion order;
      `Other` is any other object, carrying the text `str()` gives for it. */
  datatype PyValue =
    | PyNone
    | PyBool(b: bool)
    | PyInt(i: int)
    | PyFloat(f: real)
    | PyStr(s: string)
    | PyList(items: seq<PyValue>)
    | PyDict(entries: seq<(string, PyValue)>)
    | Other(text: string)

  predicate IsScalar(v: PyValue) {
    v.PyNone? || v.PyBool? || v.PyInt? || v.PyFloat? || v.PyStr?
  }

  function Keys(entries: seq<(string, PyValue)>): (ks: seq<string>)
    ensures |ks| == |entries| && forall i :: 0 <= i < |entries| ==> ks[i] == entries[i].0
  {
    seq(|entries|, i requires 0 <= i < |entries| => entries[i].0)
  }

  /** What `json.dumps` accepts: scalars, and lists and dicts of such values. */
  predicate Serializable(v: PyValue)
    decreases v
  {
    match v
    case PyList(items) => forall i :: 0 <= i < |items| ==> Serializable(items[i])
    case PyDict(entries) => forall i :: 0 <= i < |entries| ==> Serializable(entries[i].1)
    case Other(_) => false
    case _ => true
  }

  /** `_make_json_serializable`. */
  function Sanitize(v: PyValue): (r: PyValue)
    ensures IsScalar(v) ==> r == v
    ensures v.Other? ==> r == PyStr(v.text)
    ensures v.PyList? ==> r.PyList? && |r.items| == |v.items|
    ensures v.PyDict? ==> r.PyDict? && Keys(r.entries) == Keys(v.entries)
    decreases v
  {
    match v
    case PyList(items) =>
      PyList(seq(|items|, i requires 0 <= i < |items| => Sanitize(items[i])))
    case PyDict(entries) =>
      PyDict(seq(|entries|, i requires 0 <= i < |entries| => (entries[i].0, Sanitize(entries[i].1))))
    case Other(text) => PyStr(text)
    case _ => v
  }

  /** Whatever goes in, what comes out can be dumped. */
  lemma {:induction false} SanitizeSerializable(v: PyValue)
    ensures Serializable(Sanitize(v))
    decreases v
  {
    match v
    case PyList(items) =>
      forall i | 0 <= i < |items| ensures Serializable(Sanitize(v).items[i]) {
        SanitizeSerializable(items[i]);
      }
    case PyDict(entries) =>
      forall i | 0 <= i < |entries| ensures Serializable(Sanitize(v).entries[i].1) {
        SanitizeSerializable(entries[i].1);
      }
    case _ =>
  }

  /** A value that can already be dumped comes back unchanged. */
  lemma {:induction false} SanitizeKeepsSerializable(v: PyValue)
    requires Serializable(v)
    ensures Sanitize(v) == v
    decreases v
  {
    match v
    case PyList(items) =>
      forall i | 0 <= i < |items| ensures Sanitize(items[i]) == items[i] {
        SanitizeKeepsSerializable(items[i]);
      }
      assert Sanitize(v).items == items;
    case PyDict(entries) =>
      forall i | 0 <= i < |entries| ensures Sanitize(entries[i].1) == entries[i].1 {
        SanitizeKeepsSerializable(entries[i].1);
      }
      assert Sanitize(v).entries == entries;
    case _ =>
  }

  /** Sanitising twice is sanitising once. */
  lemma SanitizeIdempotent(v: PyValue)
    ensures Sanitize(Sanitize(v)) == Sanitize(v)
  {
    SanitizeSerializable(v);
    SanitizeKeepsSerializable(Sanitize(v));
  }
}
