/**
 * Submitted form bodies (the Fetch API's `FormData`) and the indexed-field
 * convention the plantão form uses for repeated groups: `equipe_0_nome`,
 * `equipe_1_nome`, ... read in index order until the first index with no entry.
 */
module Forms {
  import opened Util
  import opened JsText

  /** A submitted form: its (name, value) entries in submission order. Only text entries are modelled. */
  type FormData = seq<(string, string)>

  /** The names that occur in the form. */
  function Names(form: FormData): set<string> {
    set e | e in form :: e.0
  }

  /** `formData.has(name)`. */
  predicate Has(form: FormData, name: string) {
    name in Names(form)
  }

  /** `formData.get(name)`: the value of the first entry with that name, or null. */
  function Get(form: FormData, name: string): (r: Option<string>)
    ensures r.Some? <==> Has(form, name)
    ensures r.Some? ==> (name, r.value) in form
  {
    if form == [] then None
    else if form[0].0 == name then Some(form[0].1)
    else
      assert Names(form) == {form[0].0} + Names(form[1..]) by {
        assert form == [form[0]] + form[1..];
      }
      Get(form[1..], name)
  }

  /** The first entry with a given name decides what `get` returns. */
  lemma {:induction false} GetFirst(form: FormData, k: nat)
    requires k < |form|
    requires forall j :: 0 <= j < k ==> form[j].0 != form[k].0
    ensures Get(form, form[k].0) == Some(form[k].1)
  {
    if k > 0 {
      GetFirst(form[1..], k - 1);
    }
  }

  /**
   * `formData.get(name)?.toString() || fallback`: the submitted value, or the
   * fallback when the entry is missing or empty.
   */
  function Field(form: FormData, name: string, fallback: string): (r: string)
    ensures r == fallback || (Get(form, name) == Some(r) && r != "")
    ensures Get(form, name).Some? && Get(form, name).value != "" ==> r == Get(form, name).value
    ensures fallback != "" ==> r != ""
  {
    match Get(form, name)
    case Some(v) => if v != "" then v else fallback
    case None => fallback
  }

  /**
   * `formData.get(name)?.toString().toUpperCase().trim() || ''`: the submitted
   * value upper-cased and trimmed, "" when missing.
   */
  function NormField(form: FormData, name: string): (r: string)
    ensures !Has(form, name) ==> r == ""
  {
    match Get(form, name)
    case Some(v) => Normalize(v)
    case None => ""
  }

  /** A normalized field is upper-case and trimmed, and normalizing it again changes nothing. */
  lemma NormFieldNormalized(form: FormData, name: string)
    ensures IsNormalized(NormField(form, name))
    ensures Normalize(NormField(form, name)) == NormField(form, name)
  {
    if Has(form, name) {
      NormalizeIsNormalized(Get(form, name).value);
    }
  }

  /**
   * `formData.get(name)?.toString().trim() || ''`: the submitted value without
   * surrounding whitespace, "" when missing.
   */
  function TrimmedField(form: FormData, name: string): (r: string)
    ensures IsTrimmed(r)
    ensures !Has(form, name) ==> r == ""
  {
    match Get(form, name)
    case Some(v) => Trim(v)
    case None => ""
  }

  // ---------------------------------------------------------------------------
  // Indexed keys and the contiguous scan
  // ---------------------------------------------------------------------------

  /** The key of entry `i` of a repeated group: `${prefix}${i}${suffix}`. */
  function IndexedKey(prefix: string, i: nat, suffix: string): string {
    prefix + Decimal(i) + suffix
  }

  /** Different indices give different keys. */
  lemma IndexedKeyInjective(prefix: string, suffix: string, i: nat, j: nat)
    requires IndexedKey(prefix, i, suffix) == IndexedKey(prefix, j, suffix)
    ensures i == j
  {
    var a, b := Decimal(i), Decimal(j);
    var key := IndexedKey(prefix, i, suffix);
    assert |a| == |b|;
    assert key[|prefix|..|prefix| + |a|] == a;
    assert IndexedKey(prefix, j, suffix)[|prefix|..|prefix| + |b|] == b;
    DecimalInjective(i, j);
  }

  /** The keys of indices below `i`. */
  function KeysBelow(prefix: string, suffix: string, i: nat): set<string> {
    set k: nat | k < i :: IndexedKey(prefix, k, suffix)
  }

  /** A scan that finds key `i` present has strictly fewer unscanned names left. */
  lemma ScanProgress(form: FormData, prefix: string, suffix: string, i: nat)
    requires Has(form, IndexedKey(prefix, i, suffix))
    ensures Names(form) - KeysBelow(prefix, suffix, i + 1) < Names(form) - KeysBelow(prefix, suffix, i)
  {
    var key := IndexedKey(prefix, i, suffix);
    assert KeysBelow(prefix, suffix, i + 1) == KeysBelow(prefix, suffix, i) + {key};
    assert key !in KeysBelow(prefix, suffix, i) by {
      forall k: nat | k < i ensures IndexedKey(prefix, k, suffix) != key {
        if IndexedKey(prefix, k, suffix) == key { IndexedKeyInjective(prefix, suffix, k, i); }
      }
    }
  }

  /**
   * Where a scan that starts at index `i` stops: the first index from `i` on
   * whose key is missing from the form. Every index between `i` and it is present.
   */
  function ScanLength(form: FormData, prefix: string, suffix: string, i: nat): (n: nat)
    ensures i <= n
    ensures forall k :: i <= k < n ==> Has(form, IndexedKey(prefix, k, suffix))
    ensures !Has(form, IndexedKey(prefix, n, suffix))
    decreases Names(form) - KeysBelow(prefix, suffix, i)
  {
    if !Has(form, IndexedKey(prefix, i, suffix)) then i
    else
      ScanProgress(form, prefix, suffix, i);
      ScanLength(form, prefix, suffix, i + 1)
  }

  /** Before its end, a scan from 0 finds index `i` present exactly when `i` is not the end. */
  lemma ScanStep(form: FormData, prefix: string, suffix: string, i: nat)
    requires i <= ScanLength(form, prefix, suffix, 0)
    ensures Has(form, IndexedKey(prefix, i, suffix)) <==> i < ScanLength(form, prefix, suffix, 0)
  {
  }

  /** The scan stops at the first gap: no index at or after a missing one is ever read. */
  lemma {:induction false} ScanStopsAtFirstGap(form: FormData, prefix: string, suffix: string, i: nat, g: nat)
    requires i <= g
    requires !Has(form, IndexedKey(prefix, g, suffix))
    ensures ScanLength(form, prefix, suffix, i) <= g
    decreases g - i
  {
    if Has(form, IndexedKey(prefix, i, suffix)) {
      assert i != g;
      ScanStopsAtFirstGap(form, prefix, suffix, i + 1, g);
    }
  }

  // ---------------------------------------------------------------------------
  // Collecting the kept entries of a scan
  // ---------------------------------------------------------------------------

  /**
   * What a loop `for k in 0..n-1: if slot(k) is present, push it` builds: the
   * present slots below `n`, in index order.
   */
  function Collect<T>(slot: nat -> Option<T>, n: nat): (r: seq<T>)
    ensures |r| <= n
  {
    if n == 0 then [] else Collect(slot, n - 1) + (if slot(n - 1).Some? then [slot(n - 1).value] else [])
  }

  /** Every collected element comes from a present slot below `n`. */
  lemma {:induction false} CollectSound<T>(slot: nat -> Option<T>, n: nat, x: T)
    requires x in Collect(slot, n)
    ensures exists k: nat :: k < n && slot(k) == Some(x)
  {
    if n > 0 {
      if x in Collect(slot, n - 1) {
        CollectSound(slot, n - 1, x);
      } else {
        assert slot(n - 1) == Some(x);
      }
    }
  }

  /**
   * The element of a present slot `k` sits at the position given by the number
   * of present slots before `k`: order is preserved and nothing present is lost.
   */
  lemma {:induction false} CollectPosition<T>(slot: nat -> Option<T>, n: nat, k: nat)
    requires k < n && slot(k).Some?
    ensures |Collect(slot, k)| < |Collect(slot, n)|
    ensures Collect(slot, n)[|Collect(slot, k)|] == slot(k).value
  {
    CollectPrefix(slot, k + 1, n);
    assert Collect(slot, k + 1) == Collect(slot, k) + [slot(k).value];
  }

  /** Collecting up to `m` gives a prefix of collecting up to any `n >= m`. */
  lemma {:induction false} CollectPrefix<T>(slot: nat -> Option<T>, m: nat, n: nat)
    requires m <= n
    ensures Collect(slot, m) <= Collect(slot, n)
    decreases n - m
  {
    if m < n {
      CollectPrefix(slot, m, n - 1);
    }
  }

  /** Slots that agree below `n` collect the same sequence. */
  lemma {:induction false} CollectAgree<T>(s1: nat -> Option<T>, s2: nat -> Option<T>, n: nat)
    requires forall k: nat :: k < n ==> s1(k) == s2(k)
    ensures Collect(s1, n) == Collect(s2, n)
  {
    if n > 0 {
      CollectAgree(s1, s2, n - 1);
    }
  }
}
