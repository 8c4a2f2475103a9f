/**
 * Streamlit's per-browser `st.session_state`: a dictionary from string keys
 * to arbitrary Python values. The caches only need to tell `None` and numbers
 * (the stored timestamps) apart from everything else, which stays opaque.
 */
module Session {
  import opened Wrappers

  /** A value held in session state: `None`, a boolean, a number, or any other object (never a number). */
  datatype Val<D> = PyNone | Bool(b: bool) | Num(n: int) | Obj(d: D)

  /** The value as an operand of `-`: booleans count as 0 and 1; `None` means the `TypeError`. */
  function AsNumber<D>(v: Val<D>): (r: Option<int>)
    ensures r.Some? <==> v.Num? || v.Bool?
    ensures v.Num? ==> r == Some(v.n)
  {
    match v
    case Num(n) => Some(n)
    case Bool(b) => Some(if b then 1 else 0)
    case _ => None
  }

  type State<D> = map<string, Val<D>>

  /** How a call of a wrapped function ended: a returned value or an exception's message. */
  datatype Outcome<D> = Returned(v: Val<D>) | Raised(msg: string)

  /** `key in st.session_state and st.session_state[key] is not None`. */
  predicate Holds<D>(s: State<D>, key: string) {
    key in s && !s[key].PyNone?
  }

  /** `st.session_state.get(key)`: a missing key reads as `None`. */
  function Lookup<D>(s: State<D>, key: string): (r: Val<D>)
    ensures r.PyNone? <==> !Holds(s, key)
    ensures key in s ==> r == s[key]
  {
    if key in s then s[key] else PyNone
  }

  /** Deleting a set of keys removes exactly those and leaves every other entry as it was. */
  function DeleteKeys<D>(s: State<D>, keys: set<string>): (r: State<D>)
    ensures forall k :: k in r <==> k in s && k !in keys
    ensures forall k :: k in r ==> r[k] == s[k]
  {
    s - keys
  }
}
