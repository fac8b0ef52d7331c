# Pakettikauppa for WooCommerce: rate selection and shipment helpers

A Dafny model of the logic in the Pakettikauppa WooCommerce shipping plugin
that is more than glue around WordPress and the vendor SDK.

- **Rate selection** (`WC_Pakettikauppa_Shipping_Method::calculate_shipping`).
  The saved per-service settings are walked in order. A rate is added for
  each entry whose `active` flag is exactly the string `"yes"`. The rate id is
  `<method id>:<service code>` and the label comes from the service-title
  lookup. The cost is the flat price, or 0 when a free-shipping tier is set
  and the cart total is strictly above it.
- **Default filling** (the map update in `generate_pkprice_html`). Every
  offered service that has no saved entry gets an inactive entry at the
  default fee of 5.95 with no free-shipping tier.
- **Shipment helpers** (the static functions of `WC_Pakettikauppa_Shipment`):
  - the Finnish bank reference number (viitenumero) with its 7-3-1 check digit;
  - the status text of a tracking code;
  - the weight and the volume of an order, with the volume normalised from
    mm, cm or dm to metres;
  - the check of the receiver's address;
  - the tracking link;
  - the default service.

Files:

- `wrappers.dfy`: the `Option` type.
- `decimal.dfy`: decimal text of integers, as PHP's `strval` writes it, and the parse back.
- `shipment.dfy`: the shipment helpers.
- `shipping_method.dfy`: the shipping method as a class. Its `rates` field
  is the list the method appends to.

The loops of the source stay loops:

- `CalculateReference`, `OrderWeight` and `OrderVolume` are methods. Each
  is proved equal to a recursive specification function.
- `CalculateShipping` appends to `rates`. It is proved to leave exactly the
  old rates followed by the specification `Rates` of the saved settings.
- `FillDefaults` builds the filled map in a loop.

The properties the plugin relies on are lemmas about those specification
functions.

Inputs from outside the model are parameters:

- the cart total;
- the decoded saved settings;
- the service-title lookup (an SDK call);
- the shop's dimension unit (a WordPress option).

Order 12345 has base 12445. Its digits from the right, 5, 4, 4, 2, 1,
against the weights 7, 3, 1, 7, 3 sum to 68, so the reference is `124452`
(`Shipment.ReferenceExample`).

## Model

| member | source | states |
|---|---|---|
| Decimal.NatToString | includes/class-wc-pakettikauppa-shipment.php:221 | the decimal text of a natural number, as `strval` writes it: at least one character, all digits, and no leading zero unless the number is 0 |
| Decimal.IntToString | includes/class-wc-pakettikauppa-shipment.php:130 | the decimal text of an integer as `%s` writes it: non-empty, and it starts with '-' exactly when the integer is negative |
| Decimal.ParseNatToString | includes/class-wc-pakettikauppa-shipment.php:221 | reading the decimal text of n back gives n, so `strval` loses nothing |
| Decimal.NatToStringLength | includes/class-wc-pakettikauppa-shipment.php:220-221 | a number below 10^k has at most k digits, and one at or above 10^k has more than k |
| Decimal.IntToStringInjective | includes/class-wc-pakettikauppa-shipment.php:130 | different integers have different decimal texts, negatives included |
| Shipment.ReferenceWeightsTable | includes/class-wc-pakettikauppa-shipment.php:220 | the weight table, defined as weight 7, 3, 1 by position from the right, is the source's 19-entry literal |
| Shipment.Reference | includes/class-wc-pakettikauppa-shipment.php:219-234 | the digits of id + 100 followed by the check digit of their weighted sum; at least two characters, ending in a digit (the rest is ReferenceShape and ReferenceIsValid) |
| Shipment.Reversed | includes/class-wc-pakettikauppa-shipment.php:222 | reversing keeps the length; the position of each digit is given by ReversedAt |
| Shipment.CheckDigit | includes/class-wc-pakettikauppa-shipment.php:230 | the check digit is in 0..9 and brings the weighted sum to a multiple of ten |
| Shipment.BaseLength | includes/class-wc-pakettikauppa-shipment.php:220-221 | every base up to PHP_INT_MAX has at most 19 digits, so the table never runs out; a base of an id >= 0 has at least 3 |
| Shipment.ReversedAt | includes/class-wc-pakettikauppa-shipment.php:222 | position i of the reversed base is digit i counted from the right |
| Shipment.ReferenceStep | includes/class-wc-pakettikauppa-shipment.php:225-228 | one loop pass: the weight shifted off the table belongs to the digit's position, and the sum grows by that digit times its weight |
| Shipment.CalculateReference | includes/class-wc-pakettikauppa-shipment.php:219-234 | the loop that shifts weights off the table and sums from the right returns exactly the specification reference |
| Shipment.ReferenceShape | includes/class-wc-pakettikauppa-shipment.php:221-232 | the reference is the decimal digits of id + 100, unchanged and in order, then one digit; it has at most 20 digits |
| Shipment.CheckDigitUnique | includes/class-wc-pakettikauppa-shipment.php:230 | no other digit completes the weighted sum to a multiple of ten |
| Shipment.ReferenceIsValid | includes/class-wc-pakettikauppa-shipment.php:224-232 | every reference passes the 7-3-1 check; recomputing the check digit from the prefix gives its last digit |
| Shipment.ReferenceInjective | includes/class-wc-pakettikauppa-shipment.php:219-234 | different order ids get different references |
| Shipment.ReferenceDetectsSingleDigitError | includes/class-wc-pakettikauppa-shipment.php:213-234 | changing any one digit of the base of a valid reference makes it fail the check |
| Shipment.ReferenceExample | includes/class-wc-pakettikauppa-shipment.php:219-234 | order 12345 has reference 124452 |
| Shipment.StatusText | includes/class-wc-pakettikauppa-shipment.php:113-134 | the switch over the 13 known codes and the fallback; what it promises is stated by StatusTextShape and StatusTextInjective |
| Shipment.StatusTextShape | includes/class-wc-pakettikauppa-shipment.php:116-130 | a code gets the "Unknown status: " text exactly when it is not one of the 13 known codes; that text ends with the code's decimal text |
| Shipment.KnownStatusTextLength | includes/class-wc-pakettikauppa-shipment.php:117-129 | the length of each of the 13 fixed phrases |
| Shipment.KnownStatusTextInjective | includes/class-wc-pakettikauppa-shipment.php:117-129 | no two known codes share a phrase |
| Shipment.StatusTextInjective | includes/class-wc-pakettikauppa-shipment.php:113-134 | no two integers share a status text, so the code can be recovered from it |
| Shipment.StatusTextUnknownExample | includes/class-wc-pakettikauppa-shipment.php:130 | code 999999 reads "Unknown status: 999999" |
| Shipment.Shipped | includes/class-wc-pakettikauppa-shipment.php:147-149 | the lines kept are exactly those with a product id above 0 whose product is not virtual |
| Shipment.ShippedCounts | includes/class-wc-pakettikauppa-shipment.php:146-149 | every shipped line is kept as many times as it occurs in the order, and every other line is dropped |
| Shipment.TotalWeight | includes/class-wc-pakettikauppa-shipment.php:142-157 | the specification of order_weight: weight times quantity summed over the shipped lines; what it promises is stated by OrderWeight, TotalWeightOnlyShipped and TotalWeightNonNegative |
| Shipment.OrderWeight | includes/class-wc-pakettikauppa-shipment.php:142-157 | the loop's total is the sum of weight times quantity over the shipped lines |
| Shipment.TotalWeightOnlyShipped | includes/class-wc-pakettikauppa-shipment.php:145-154 | the weight is that of the shipped lines alone; an order with none, the empty one included, weighs 0 |
| Shipment.TotalWeightNonNegative | includes/class-wc-pakettikauppa-shipment.php:150 | with non-negative weights and quantities the total is non-negative |
| Shipment.ToLower | includes/class-wc-pakettikauppa-shipment.php:174 | lower-casing keeps the length and maps every character through ASCII lower case |
| Shipment.DimMultiplier | includes/class-wc-pakettikauppa-shipment.php:174-187 | the lower-cased unit mm gives 0.001, cm 0.01 and dm 0.1; the factor is 1 exactly when the lower-cased unit is none of these |
| Shipment.VolumeAt | includes/class-wc-pakettikauppa-shipment.php:168-194 | factor cubed times width, height, length and quantity, summed over the shipped lines; what it promises is stated by the lemmas below |
| Shipment.TotalVolume | includes/class-wc-pakettikauppa-shipment.php:165-197 | the specification of order_volume: VolumeAt at the factor of the shop's unit |
| Shipment.OrderVolume | includes/class-wc-pakettikauppa-shipment.php:165-197 | the loop's total is the sum of factor cubed times width, height, length and quantity over the shipped lines |
| Shipment.VolumeAtOnlyShipped | includes/class-wc-pakettikauppa-shipment.php:168-194 | only shipped lines contribute volume, whatever the factor |
| Shipment.TotalVolumeOnlyShipped | includes/class-wc-pakettikauppa-shipment.php:168-194 | the volume is that of the shipped lines alone; an order with none, the empty one included, has volume 0 |
| Shipment.VolumeAtNonNegative | includes/class-wc-pakettikauppa-shipment.php:189-190 | with a non-negative factor, sides and quantities, the volume is non-negative |
| Shipment.TotalVolumeNonNegative | includes/class-wc-pakettikauppa-shipment.php:165-197 | with non-negative sides and quantities, the volume in any unit is non-negative |
| Shipment.VolumeAtCube | includes/class-wc-pakettikauppa-shipment.php:189-190 | the unit contributes its factor cubed to the whole order's volume |
| Shipment.TotalVolumeInMetres | includes/class-wc-pakettikauppa-shipment.php:173-190 | the volume in any unit is the factor cubed times the volume with dimensions taken as metres |
| Shipment.ItemVolumeOfScaled | includes/class-wc-pakettikauppa-shipment.php:189-190 | a line with sides f times larger gives the line's volume at f times the factor |
| Shipment.VolumeAtOfScaled | includes/class-wc-pakettikauppa-shipment.php:189-190 | an order with sides f times larger gives the order's volume at f times the factor |
| Shipment.DimMultiplierIgnoresCase | includes/class-wc-pakettikauppa-shipment.php:174 | the unit is compared case-insensitively |
| Shipment.CentimetresAsMillimetres | includes/class-wc-pakettikauppa-shipment.php:176-181 | a parcel measured in mm, with numbers ten times larger, has the same volume as measured in cm |
| Shipment.DecimetresAsCentimetres | includes/class-wc-pakettikauppa-shipment.php:179-184 | a parcel measured in cm, with numbers ten times larger, has the same volume as measured in dm |
| Shipment.MetresAsDecimetres | includes/class-wc-pakettikauppa-shipment.php:182-187 | a parcel measured in dm, with numbers ten times larger, has the same volume as measured in m |
| Shipment.TotalVolumeExample | includes/class-wc-pakettikauppa-shipment.php:179-190 | two 0.5 x 0.4 x 0.3 cm items are 1.2e-7 cubic metres |
| Shipment.ValidateOrderShippingReceiver | includes/class-wc-pakettikauppa-shipment.php:254-266 | valid exactly when name, postcode, city and country are all non-empty and at least one address line is, where "0" counts as empty |
| Shipment.TrackingUrl | includes/class-wc-pakettikauppa-shipment.php:207-210 | the link is the tracking page prefix followed by the tracking code itself, and it does not depend on the service |
| Shipment.TrackingUrlRecoversCode | includes/class-wc-pakettikauppa-shipment.php:207-210 | two links are equal only for the same tracking code |
| Shipment.DefaultService | includes/class-wc-pakettikauppa-shipment.php:242-246 | the default service is "2103" whatever the post and the order |
| ShippingMethod.IsActive | includes/class-wc-pakettikauppa-shipping-method.php:273 | an entry is active exactly when its flag is the string "yes"; the boolean true, the string "no" and the default boolean false are not |
| ShippingMethod.ShippingCost | includes/class-wc-pakettikauppa-shipping-method.php:275-279 | the cost is the price or 0, and it is the price whenever no tier is set or the cart total does not exceed the tier |
| ShippingMethod.Rates | includes/class-wc-pakettikauppa-shipping-method.php:271-289 | the specification of calculate_shipping's loop: one rate per active entry, in order; never more rates than entries |
| ShippingMethod.RateId | includes/class-wc-pakettikauppa-shipping-method.php:283 | a rate id is the method id, a colon, then the service code |
| ShippingMethod.RateIdInjective | includes/class-wc-pakettikauppa-shipping-method.php:283 | the service code can be recovered from the rate id |
| ShippingMethod.DefaultEntry | includes/class-wc-pakettikauppa-shipping-method.php:101-105 | a filled-in entry is inactive, costs the fee and has no free-shipping tier |
| ShippingMethod.PakettikauppaShippingMethod.constructor | includes/class-wc-pakettikauppa-shipping-method.php:35-44 | the method id is WC_Pakettikauppa_Shipping_Method, the fee is 5.95, and no rate has been added yet |
| ShippingMethod.PakettikauppaShippingMethod.CalculateShipping | includes/class-wc-pakettikauppa-shipping-method.php:264-291 | the rates are the old rates followed by the specification rates of the saved settings; nothing is added when they do not decode |
| ShippingMethod.PakettikauppaShippingMethod.FillDefaults | includes/class-wc-pakettikauppa-shipping-method.php:99-105 | the filled keys are the saved ones plus every offered code; saved entries are unchanged and every new entry is the default entry |
| ShippingMethod.RatesAppend | includes/class-wc-pakettikauppa-shipping-method.php:271-289 | one more saved entry appends its rate if it is active, and nothing otherwise |
| ShippingMethod.RatesLength | includes/class-wc-pakettikauppa-shipping-method.php:271-289 | the number of rates is the number of active entries |
| ShippingMethod.RatesAt | includes/class-wc-pakettikauppa-shipping-method.php:271-289 | the active entry at index i yields the rate numbered by how many active entries precede it |
| ShippingMethod.RatesFromActive | includes/class-wc-pakettikauppa-shipping-method.php:271-289 | every rate comes from an active entry at the position its index says |
| ShippingMethod.CountActiveIncreases | includes/class-wc-pakettikauppa-shipping-method.php:271-288 | of two active entries the earlier one's rate comes first: nothing is reordered |
| ShippingMethod.RateOfferedIffActive | includes/class-wc-pakettikauppa-shipping-method.php:271-288 | a rate with a service's id is offered if and only if that service has an entry whose flag is exactly "yes" |
| ShippingMethod.InactiveEntriesYieldNoRate | includes/class-wc-pakettikauppa-shipping-method.php:273 | settings with no "yes" flag, "no" and boolean false included, yield no rate |
| ShippingMethod.RateIdsDistinct | includes/class-wc-pakettikauppa-shipping-method.php:271-288 | distinct saved codes give distinct rate ids |
| ShippingMethod.NoFreeTierChargesPrice | includes/class-wc-pakettikauppa-shipping-method.php:277 | with a tier of 0 the price is charged whatever the cart total |
| ShippingMethod.FreeTierIsStrict | includes/class-wc-pakettikauppa-shipping-method.php:277 | a total equal to the tier pays the price; only a total above it ships free |
| ShippingMethod.CostNonIncreasing | includes/class-wc-pakettikauppa-shipping-method.php:275-279 | for a non-negative price the cost lies between 0 and the price and never grows with the cart total |
| ShippingMethod.RatesExample | includes/class-wc-pakettikauppa-shipping-method.php:271-289 | a 5.95 service with a tier of 50 is free at a total of 60 and costs 5.95 at 40 |

## Left out

- The vendor SDK: client construction, `load`, `services` and `get_pickup_points` are network calls into a library that is not part of this model. `service_title` becomes the lookup parameter.
- WordPress plumbing is not modelled: `get_option`, `add_action`/`add_filter`, `init`, the static form-field table of `init_form_fields`, `__()` translation (phrases are the English literals) and the internals of `add_rate`.
- ShippingMethod.PakettikauppaShippingMethod.CalculateShipping: `add_rate` is modelled as an append. WooCommerce's keying of rates by id is not modelled, and neither is the cast of the cost to a string.
- ShippingMethod.PakettikauppaShippingMethod.CalculateShipping: the saved settings are given already decoded. JSON decoding and PHP's loose comparison of price strings with numbers are not modelled; prices are `real`.
- ShippingMethod.PakettikauppaShippingMethod.FillDefaults: the HTML rendering of `generate_pkprice_html` and the reading of the option are left out. The default `price_free` is the string `'0'` in the source and 0 here.
- `validate_pkprice_field` is not modelled. Its loop edits a by-value copy (and computes `price_free` from `price`), so it changes nothing; what remains is `json_encode`, a foreign call.
- Shipment.CalculateReference: requires 0 <= id + 100 <= PHP_INT_MAX. Below that, `strval` puts a '-' into the digits, and PHP's handling of it depends on the version. Above it, id + 100 is a float.
- Shipment.StatusTextShape: the code is taken as an integer. PHP's `intval` of other values is not modelled.
- Shipment.OrderWeight: the product lookup `get_product_from_item` is folded into each order line. PHP's coercion of an empty weight string is not modelled.
- Shipment.OrderVolume: the dimensions are numbers. PHP's coercion of empty width, height or length strings is not modelled.
- Shipment.TotalVolume: uses exact `real` arithmetic rather than PHP floats, so the rounding of `pow(0.01, 3)` and similar is not modelled. The dimension unit is a parameter instead of an option read.
- Shipment.ValidateOrderShippingReceiver: the receiver's fields are given as strings. The formatting of the full name by `get_formatted_shipping_full_name` is a WooCommerce call that is not part of this model.
- Shipment.TrackingUrl: the tracking code is taken as a string; PHP's concatenation of an int code is its decimal text.
- Strings are sequences of Unicode characters, not PHP byte strings. Lengths such as those in Shipment.KnownStatusTextLength count the en dash of code 56 as one character, where PHP's `strlen` counts three bytes.
