/**
 * Keyword options of the data processor: the values a selector can take, the
 * merge of construction-time defaults with per-call overrides, and how a value
 * is rendered inside the f-strings that build names and patterns.
 */
module Options {
  import opened Paths

  /** A keyword argument value: the selectors are strings or integers. */
  datatype Value = Str(s: string) | Int(n: int)

  type Options = map<string, Value>

  /** `kwargs_ = self.kwargs.copy(); kwargs_.update(kwargs)`: the stored
      options overlaid by the per-call ones, per-call values winning. */
  function Merge(stored: Options, perCall: Options): (r: Options)
    ensures r.Keys == stored.Keys + perCall.Keys
    ensures forall k :: k in perCall ==> r[k] == perCall[k]
    ensures forall k :: k in stored && k !in perCall ==> r[k] == stored[k]
  {
    stored + perCall
  }

  /** The value a keyword parameter receives: the option when given, else the
      parameter's default. */
  function Lookup(opts: Options, key: string, default: Value): (v: Value)
    ensures key in opts ==> v == opts[key]
    ensures key !in opts ==> v == default
  {
    if key in opts then opts[key] else default
  }

  /** f"{v}" */
  function Render(v: Value): string {
    match v
    case Str(s) => s
    case Int(n) => IntToDecimal(n)
  }

  /** f"{v:02}": integers are zero-padded after the sign to width two; a string
      is left-aligned and filled with '0' on the right to width two. */
  function FormatRunNum(v: Value): (r: string)
    ensures |r| >= 2
    ensures v.Int? && v.n >= 0 ==> AllDigits(r) && DecimalValue(r) == v.n
    ensures v.Int? && v.n >= 0 ==>
      var d := NatToDecimal(v.n); r == if |d| < 2 then "0" + d else d
    ensures v.Int? && v.n < 0 ==> r == IntToDecimal(v.n)
    ensures v.Str? ==> IsPrefix(v.s, r) && |r| == (if |v.s| < 2 then 2 else |v.s|)
    ensures v.Str? ==> forall k :: |v.s| <= k < |r| ==> r[k] == '0'
  {
    match v
    case Int(n) =>
      if 0 <= n < 10 then
        LeadingZero(IntToDecimal(n));
        "0" + IntToDecimal(n)
      else IntToDecimal(n)
    case Str(s) =>
      if |s| == 0 then "00" else if |s| == 1 then s + "0" else s
  }

  /** A keyword parameter of a get_* method receives the per-call value when
      one is given, else the stored value, else its own default. */
  lemma LookupMerged(stored: Options, perCall: Options, key: string, default: Value)
    ensures Lookup(Merge(stored, perCall), key, default) ==
      if key in perCall then perCall[key] else if key in stored then stored[key] else default
  {
  }
}
