/**
 * The Pakettikauppa shipping method: which rates a cart is offered, at what
 * cost, and the defaults the settings form shows for services that have no
 * saved entry yet.
 */
module ShippingMethod {
  import opened Wrappers

  /** The method id, and so the prefix of every rate id. */
  const MethodId: string := "WC_Pakettikauppa_Shipping_Method"

  /** The default shipping fee. */
  const DefaultFee: real := 5.95

  /**
   * The `active` value of a saved entry as PHP holds it: the form posts the
   * strings "no" (hidden field) or "yes" (checkbox), the defaults hold the
   * boolean false.
   */
  datatype ActiveFlag = Text(text: string) | Boolean(value: bool)

  /** The saved settings of one service: the flag, the flat price and the free-shipping tier. */
  datatype ServiceSettings = ServiceSettings(active: ActiveFlag, price: real, priceFree: real)

  /** One offered rate; a label of None is the `false` of a service title that is not found. */
  datatype Rate = Rate(id: string, labelText: Option<string>, cost: real)

  /** The strict comparison `=== 'yes'`: the boolean true would not pass either. */
  predicate IsActive(s: ServiceSettings) {
    s.active == Text("yes")
  }

  /** The flat price, or nothing once the cart total is above a free-shipping tier that is set. */
  function ShippingCost(s: ServiceSettings, cartTotal: real): (c: real)
    ensures c == s.price || c == 0.0
    ensures s.priceFree <= 0.0 || cartTotal <= s.priceFree ==> c == s.price
  {
    if s.priceFree < cartTotal && s.priceFree > 0.0 then 0.0 else s.price
  }

  function RateId(methodId: string, serviceCode: string): (id: string)
    ensures |id| == |methodId| + 1 + |serviceCode|
    ensures id[..|methodId|] == methodId && id[|methodId|] == ':'
    ensures id[|methodId| + 1..] == serviceCode
  {
    methodId + ":" + serviceCode
  }

  function RateFor(methodId: string, cartTotal: real, serviceCode: string, s: ServiceSettings,
                   serviceTitle: string -> Option<string>): Rate
  {
    Rate(RateId(methodId, serviceCode), serviceTitle(serviceCode), ShippingCost(s, cartTotal))
  }

  /** The rates the saved settings yield, in their order: one for each active entry. */
  function Rates(methodId: string, cartTotal: real, settings: seq<(string, ServiceSettings)>,
                 serviceTitle: string -> Option<string>): (r: seq<Rate>)
    ensures |r| <= |settings|
  {
    if settings == [] then []
    else
      (if IsActive(settings[0].1)
       then [RateFor(methodId, cartTotal, settings[0].0, settings[0].1, serviceTitle)]
       else [])
      + Rates(methodId, cartTotal, settings[1..], serviceTitle)
  }

  /** The number of active entries. */
  function CountActive(settings: seq<(string, ServiceSettings)>): nat {
    if settings == [] then 0
    else (if IsActive(settings[0].1) then 1 else 0) + CountActive(settings[1..])
  }

  /** The entry the settings form shows for an offered service that has none saved. */
  function DefaultEntry(fee: real): (e: ServiceSettings)
    ensures !IsActive(e) && e.price == fee && e.priceFree == 0.0
  {
    ServiceSettings(Boolean(false), fee, 0.0)
  }

  // ---------------------------------------------------------------------
  // The method object
  // ---------------------------------------------------------------------

  class PakettikauppaShippingMethod {
    const id: string
    var fee: real
    /** The rates added so far for the current package. */
    var rates: seq<Rate>

    constructor ()
      ensures id == MethodId && fee == DefaultFee && rates == []
    {
      id := MethodId;
      fee := DefaultFee;
      rates := [];
    }

    /**
     * calculate_shipping: walks the saved settings in order and adds one rate
     * per active entry. `savedSettings` is None when the saved option does
     * not decode, and then nothing is added.
     */
    method CalculateShipping(cartTotal: real, savedSettings: Option<seq<(string, ServiceSettings)>>,
                             serviceTitle: string -> Option<string>)
      modifies this`rates
      ensures rates == old(rates) + (if savedSettings.Some? then Rates(id, cartTotal, savedSettings.value, serviceTitle) else [])
    {
      if savedSettings.None? {
        return;
      }
      var settings := savedSettings.value;
      for i := 0 to |settings|
        invariant rates == old(rates) + Rates(id, cartTotal, settings[..i], serviceTitle)
      {
        var (serviceCode, serviceSettings) := settings[i];
        RatesAppend(id, cartTotal, settings[..i], settings[i], serviceTitle);
        assert settings[..i + 1] == settings[..i] + [settings[i]];
        if serviceSettings.active == Text("yes") {
          var shippingCost := serviceSettings.price;
          if serviceSettings.priceFree < cartTotal && serviceSettings.priceFree > 0.0 {
            shippingCost := 0.0;
          }
          rates := rates + [Rate(id + ":" + serviceCode, serviceTitle(serviceCode), shippingCost)];
        }
      }
      assert settings[..|settings|] == settings;
    }

    /**
     * The default-filling step of generate_pkprice_html: every offered service
     * without a saved entry gets an inactive one at the default fee with no
     * free-shipping tier; saved entries are left as they are. `options` is
     * None when the field has no options.
     */
    method FillDefaults(values: map<string, ServiceSettings>, options: Option<seq<string>>)
      returns (filled: map<string, ServiceSettings>)
      ensures filled.Keys == values.Keys + (if options.Some? then set c | c in options.value else {})
      ensures forall c :: c in values ==> filled[c] == values[c]
      ensures forall c :: c in filled && c !in values ==> filled[c] == DefaultEntry(fee)
    {
      filled := values;
      if options.Some? {
        var offered := options.value;
        for k := 0 to |offered|
          invariant filled.Keys == values.Keys + set j | 0 <= j < k :: offered[j]
          invariant forall c :: c in values ==> filled[c] == values[c]
          invariant forall c :: c in filled && c !in values ==> filled[c] == DefaultEntry(fee)
        {
          var serviceCode := offered[k];
          if serviceCode !in filled {
            filled := filled[serviceCode := DefaultEntry(fee)];
          }
        }
        assert (set j | 0 <= j < |offered| :: offered[j]) == set c | c in offered;
      }
    }
  }

  // ---------------------------------------------------------------------
  // What the rates promise
  // ---------------------------------------------------------------------

  lemma {:induction false} RatesAppend(methodId: string, cartTotal: real, settings: seq<(string, ServiceSettings)>,
                                       entry: (string, ServiceSettings), serviceTitle: string -> Option<string>)
    ensures Rates(methodId, cartTotal, settings + [entry], serviceTitle)
         == Rates(methodId, cartTotal, settings, serviceTitle)
            + (if IsActive(entry.1) then [RateFor(methodId, cartTotal, entry.0, entry.1, serviceTitle)] else [])
    decreases |settings|
  {
    var last := if IsActive(entry.1) then [RateFor(methodId, cartTotal, entry.0, entry.1, serviceTitle)] else [];
    if settings == [] {
      assert [] + [entry] == [entry];
      assert [entry][1..] == [];
      assert Rates(methodId, cartTotal, [entry], serviceTitle) == last + [];
    } else {
      var s := settings + [entry];
      var head := if IsActive(settings[0].1)
                  then [RateFor(methodId, cartTotal, settings[0].0, settings[0].1, serviceTitle)] else [];
      assert s[0] == settings[0];
      assert s[1..] == settings[1..] + [entry];
      RatesAppend(methodId, cartTotal, settings[1..], entry, serviceTitle);
      var tail := Rates(methodId, cartTotal, settings[1..], serviceTitle);
      assert Rates(methodId, cartTotal, s, serviceTitle) == head + (tail + last);
      assert Rates(methodId, cartTotal, settings, serviceTitle) == head + tail;
      assert head + (tail + last) == (head + tail) + last;
    }
  }

  lemma {:induction false} CountActiveAppend(settings: seq<(string, ServiceSettings)>, entry: (string, ServiceSettings))
    ensures CountActive(settings + [entry]) == CountActive(settings) + (if IsActive(entry.1) then 1 else 0)
    decreases |settings|
  {
    if settings == [] {
      assert [] + [entry] == [entry];
      assert [entry][1..] == [];
    } else {
      var s := settings + [entry];
      assert s[0] == settings[0];
      assert s[1..] == settings[1..] + [entry];
      CountActiveAppend(settings[1..], entry);
    }
  }

  /** One rate per active entry: the count of rates is the count of active entries. */
  lemma {:induction false} RatesLength(methodId: string, cartTotal: real, settings: seq<(string, ServiceSettings)>,
                                       serviceTitle: string -> Option<string>)
    ensures |Rates(methodId, cartTotal, settings, serviceTitle)| == CountActive(settings)
  {
    if settings != [] {
      RatesLength(methodId, cartTotal, settings[1..], serviceTitle);
    }
  }

  /**
   * The active entry at index i yields the rate numbered by how many active
   * entries come before it: nothing is reordered, dropped or merged.
   */
  lemma {:induction false} RatesAt(methodId: string, cartTotal: real, settings: seq<(string, ServiceSettings)>,
                                   serviceTitle: string -> Option<string>, i: nat)
    requires i < |settings| && IsActive(settings[i].1)
    ensures CountActive(settings[..i]) < |Rates(methodId, cartTotal, settings, serviceTitle)|
    ensures Rates(methodId, cartTotal, settings, serviceTitle)[CountActive(settings[..i])]
         == RateFor(methodId, cartTotal, settings[i].0, settings[i].1, serviceTitle)
  {
    RatesLength(methodId, cartTotal, settings, serviceTitle);
    var rest := settings[1..];
    RatesLength(methodId, cartTotal, rest, serviceTitle);
    if i == 0 {
      assert settings[..0] == [];
    } else {
      assert settings[..i] == [settings[0]] + rest[..i - 1];
      assert ([settings[0]] + rest[..i - 1])[1..] == rest[..i - 1];
      RatesAt(methodId, cartTotal, rest, serviceTitle, i - 1);
    }
  }

  /** Every rate comes from an active entry, at the position its index says. */
  lemma {:induction false} RatesFromActive(methodId: string, cartTotal: real, settings: seq<(string, ServiceSettings)>,
                                           serviceTitle: string -> Option<string>, k: nat)
    requires k < |Rates(methodId, cartTotal, settings, serviceTitle)|
    ensures exists i :: 0 <= i < |settings| && IsActive(settings[i].1) && CountActive(settings[..i]) == k
              && Rates(methodId, cartTotal, settings, serviceTitle)[k]
                 == RateFor(methodId, cartTotal, settings[i].0, settings[i].1, serviceTitle)
  {
    var rest := settings[1..];
    assert settings != [];
    assert settings[..0] == [];
    if IsActive(settings[0].1) && k == 0 {
      assert 0 <= 0 < |settings| && IsActive(settings[0].1) && CountActive(settings[..0]) == 0;
    } else {
      var k' := if IsActive(settings[0].1) then k - 1 else k;
      RatesFromActive(methodId, cartTotal, rest, serviceTitle, k');
      var i' :| 0 <= i' < |rest| && IsActive(rest[i'].1) && CountActive(rest[..i']) == k'
                && Rates(methodId, cartTotal, rest, serviceTitle)[k']
                   == RateFor(methodId, cartTotal, rest[i'].0, rest[i'].1, serviceTitle);
      assert settings[..i' + 1] == [settings[0]] + rest[..i'];
      assert ([settings[0]] + rest[..i'])[1..] == rest[..i'];
      assert settings[i' + 1] == rest[i'];
    }
  }

  /** Of two active entries, the earlier one's rate comes first. */
  lemma {:induction false} CountActiveIncreases(settings: seq<(string, ServiceSettings)>, i: nat, j: nat)
    requires i < j <= |settings| && IsActive(settings[i].1)
    ensures CountActive(settings[..i]) < CountActive(settings[..j])
    decreases j
  {
    var a := settings[..j - 1];
    assert settings[..j] == a + [settings[j - 1]];
    CountActiveAppend(a, settings[j - 1]);
    if i < j - 1 {
      assert a[..i] == settings[..i];
      assert a[i] == settings[i];
      assert a[..j - 1] == a;
      CountActiveIncreases(a, i, j - 1);
    } else {
      assert a == settings[..i];
    }
  }

  /** The code after the method id and the colon is the service code of the rate. */
  lemma RateIdInjective(methodId: string, a: string, b: string)
    requires RateId(methodId, a) == RateId(methodId, b)
    ensures a == b
  {
  }

  /**
   * A rate with the id of a service is offered exactly when that service has
   * an active entry.
   */
  lemma RateOfferedIffActive(methodId: string, cartTotal: real, settings: seq<(string, ServiceSettings)>,
                             serviceTitle: string -> Option<string>, serviceCode: string)
    ensures (exists k :: 0 <= k < |Rates(methodId, cartTotal, settings, serviceTitle)|
               && Rates(methodId, cartTotal, settings, serviceTitle)[k].id == RateId(methodId, serviceCode))
        <==> (exists i :: 0 <= i < |settings| && settings[i].0 == serviceCode && IsActive(settings[i].1))
  {
    var rates := Rates(methodId, cartTotal, settings, serviceTitle);
    if k :| 0 <= k < |rates| && rates[k].id == RateId(methodId, serviceCode) {
      RatesFromActive(methodId, cartTotal, settings, serviceTitle, k);
      var i :| 0 <= i < |settings| && IsActive(settings[i].1) && CountActive(settings[..i]) == k
               && rates[k] == RateFor(methodId, cartTotal, settings[i].0, settings[i].1, serviceTitle);
      RateIdInjective(methodId, settings[i].0, serviceCode);
    }
    if i :| 0 <= i < |settings| && settings[i].0 == serviceCode && IsActive(settings[i].1) {
      RatesAt(methodId, cartTotal, settings, serviceTitle, i);
    }
  }

  /** Entries whose flag is anything but the string "yes" yield no rate, whatever the cart. */
  lemma InactiveEntriesYieldNoRate(methodId: string, cartTotal: real, settings: seq<(string, ServiceSettings)>,
                                   serviceTitle: string -> Option<string>)
    requires forall i :: 0 <= i < |settings| ==> !IsActive(settings[i].1)
    ensures Rates(methodId, cartTotal, settings, serviceTitle) == []
  {
    RatesLength(methodId, cartTotal, settings, serviceTitle);
    if Rates(methodId, cartTotal, settings, serviceTitle) != [] {
      RatesFromActive(methodId, cartTotal, settings, serviceTitle, 0);
    }
  }

  /** When the saved codes are distinct, so are the ids of the rates. */
  lemma RateIdsDistinct(methodId: string, cartTotal: real, settings: seq<(string, ServiceSettings)>,
                        serviceTitle: string -> Option<string>, k: nat, l: nat)
    requires forall i, j :: 0 <= i < j < |settings| ==> settings[i].0 != settings[j].0
    requires k < l < |Rates(methodId, cartTotal, settings, serviceTitle)|
    ensures Rates(methodId, cartTotal, settings, serviceTitle)[k].id
         != Rates(methodId, cartTotal, settings, serviceTitle)[l].id
  {
    var rates := Rates(methodId, cartTotal, settings, serviceTitle);
    RatesFromActive(methodId, cartTotal, settings, serviceTitle, k);
    var i :| 0 <= i < |settings| && IsActive(settings[i].1) && CountActive(settings[..i]) == k
             && rates[k] == RateFor(methodId, cartTotal, settings[i].0, settings[i].1, serviceTitle);
    RatesFromActive(methodId, cartTotal, settings, serviceTitle, l);
    var j :| 0 <= j < |settings| && IsActive(settings[j].1) && CountActive(settings[..j]) == l
             && rates[l] == RateFor(methodId, cartTotal, settings[j].0, settings[j].1, serviceTitle);
    if j <= i {
      if j < i {
        CountActiveIncreases(settings, j, i);
      }
      assert false;
    }
    CountActiveIncreases(settings, i, j);
    assert settings[i].0 != settings[j].0;
    assert rates[k].id[|methodId| + 1..] == settings[i].0;
    assert rates[l].id[|methodId| + 1..] == settings[j].0;
  }

  // ---------------------------------------------------------------------
  // What the cost rule promises
  // ---------------------------------------------------------------------

  /** With no free-shipping tier the flat price is charged, whatever the cart total. */
  lemma NoFreeTierChargesPrice(s: ServiceSettings, cartTotal: real)
    requires s.priceFree == 0.0
    ensures ShippingCost(s, cartTotal) == s.price
  {
  }

  /** A cart total exactly at the tier is charged in full; only a total above it ships free. */
  lemma FreeTierIsStrict(s: ServiceSettings, cartTotal: real)
    requires s.priceFree > 0.0
    ensures cartTotal == s.priceFree ==> ShippingCost(s, cartTotal) == s.price
    ensures cartTotal > s.priceFree ==> ShippingCost(s, cartTotal) == 0.0
  {
  }

  /** For a non-negative price the cost lies between nothing and the price, and never grows with the cart. */
  lemma CostNonIncreasing(s: ServiceSettings, t1: real, t2: real)
    requires s.price >= 0.0 && t1 <= t2
    ensures 0.0 <= ShippingCost(s, t2) <= ShippingCost(s, t1) <= s.price
  {
  }

  /** A 5.95 service with a tier of 50 is free at a cart total of 60 and costs 5.95 at 40. */
  lemma RatesExample(serviceTitle: string -> Option<string>)
    ensures Rates(MethodId, 60.0, [("A", ServiceSettings(Text("yes"), 5.95, 50.0))], serviceTitle)
         == [Rate(MethodId + ":A", serviceTitle("A"), 0.0)]
    ensures Rates(MethodId, 40.0, [("A", ServiceSettings(Text("yes"), 5.95, 50.0))], serviceTitle)
         == [Rate(MethodId + ":A", serviceTitle("A"), 5.95)]
  {
    var settings := [("A", ServiceSettings(Text("yes"), 5.95, 50.0))];
    assert settings[1..] == [];
    assert RateId(MethodId, "A") == MethodId + ":A";
  }
}
