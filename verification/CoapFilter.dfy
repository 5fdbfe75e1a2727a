/** Which resources a filter of the discovery resource selects, said of their quoted types. */
module CoapFilter {
  import opened CoapDiscovery

  predicate TypeAt(attributes: string, k: nat) {
    k + |RT| <= |attributes| && attributes[k..k + |RT|] == RT
  }

  /** The first type of the resource is t, in quotation marks, from position k of its attributes on. */
  predicate HasType(r: Resource, k: nat, t: string) {
    && TypeAt(r.attributes, k) && (forall j | 0 <= j < k :: !TypeAt(r.attributes, j))
    && '"' !in t && t + ['"'] <= r.attributes[k + |RT|..]
  }

  lemma {:induction false} FoundFrom(attributes: string, i: nat, k: nat)
    requires i <= k && TypeAt(attributes, k) && forall j | i <= j < k :: !TypeAt(attributes, j)
    ensures ResourceTypeFrom(attributes, i) == (true, attributes[k + |RT|..])
    decreases k - i
  {
    if i < k {
      assert !TypeAt(attributes, i);
      FoundFrom(attributes, i + 1, k);
    }
  }

  lemma {:induction false} NotFoundFrom(attributes: string, i: nat)
    requires forall j: nat | i <= j :: !TypeAt(attributes, j)
    ensures !ResourceTypeFrom(attributes, i).0
    decreases |attributes| - i
  {
    assert !TypeAt(attributes, i);
    if i + |RT| <= |attributes| {
      NotFoundFrom(attributes, i + 1);
    }
  }

  lemma QuoteInside(rt: string, x: string, n: nat)
    requires |x| <= |rt| && rt[..|x|] == x && n < |rt| && rt[n] == '"'
    ensures n < |x| ==> '"' in x
  {
    if n < |x| {
      assert x[n] == '"';
    }
  }

  /** A prefix without a quotation mark of text that starts with a quoted type is a prefix of the type. */
  lemma PrefixOfType(rt: string, t: string, x: string)
    requires t + ['"'] <= rt && '"' !in t && '"' !in x
    ensures |x| <= |rt| && rt[..|x|] == x <==> x <= t
    ensures |x| <= |rt| && rt[..|x|] == x && CharAt(rt, |x|) == '"' <==> x == t
  {
    assert rt[..|t|] == t && rt[|t|] == '"';
    if |x| <= |rt| && rt[..|x|] == x {
      QuoteInside(rt, x, |t|);
      if |x| < |t| {
        assert rt[|x|] == t[|x|];
      }
      assert x == rt[..|x|];
    }
    if x <= t {
      assert rt[..|x|] == t[..|x|];
    }
  }

  /** A filter that ends in an asterisk selects the types that start with what is in front of it, others select one. */
  lemma FilterExact(r: Resource, k: nat, t: string, filter: string)
    requires HasType(r, k, t) && filter != "" && '"' !in filter
    ensures var n := |filter| - 1;
            Selected(r, filter) <==> if filter[n] == '*' then filter[..n] <= t else filter == t
  {
    hide ResourceTypeFrom;
    var n, rt := |filter| - 1, r.attributes[k + |RT|..];
    FoundFrom(r.attributes, 0, k);
    PrefixOfType(rt, t, filter[..n]);
    PrefixOfType(rt, t, filter);
    assert filter == filter[..n] + [filter[n]];
    if n < |rt| {
      assert rt[..n + 1] == rt[..n] + [rt[n]];
    }
  }

  /** No filter but the empty one selects a resource without a type. */
  lemma UntypedExact(r: Resource, filter: string)
    requires forall j: nat :: !TypeAt(r.attributes, j)
    ensures Selected(r, filter) <==> filter == ""
  {
    hide ResourceTypeFrom;
    NotFoundFrom(r.attributes, 0);
  }

  /** rt="temperature" is selected by temp* and not by temp. */
  lemma TemperatureSelected()
    ensures var r := Resource("t", "rt=\"temperature\"");
            Selected(r, "temp*") && Selected(r, "temperature") && !Selected(r, "temp")
  {
    var r := Resource("t", "rt=\"temperature\"");
    assert r.attributes[0..4] == RT && r.attributes[4..] == "temperature\"";
    assert HasType(r, 0, "temperature");
    assert "temp*"[..4] == "temp" <= "temperature";
    FilterExact(r, 0, "temperature", "temp*");
    FilterExact(r, 0, "temperature", "temperature");
    FilterExact(r, 0, "temperature", "temp");
  }
}
