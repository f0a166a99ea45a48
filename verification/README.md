# Shop cart and user-listing negotiation, modelled in Dafny

This project models the request handlers of the Slim shop application in
`public/index.php` that carry logic of their own:

- **POST /add-cart** appends the posted product id to the basket kept in the
  `basket` cookie.
- **GET /cart** counts the basket with `array_count_values` and joins each
  distinct id to the product list by position (`$products[$key-1]`). It builds
  one cart line per id and carries `$newProduct` from one pass of the loop to
  the next.
- **POST /remove-cart** looks the posted key up with `array_search` and
  `unset`s what the search returned.
- **GET /users** picks the response format from the query string: the HTML
  page, JSON, serialized text, or no body at all.
- **GET /users-by-header** picks JSON, text or 404 from the Accept header.

The basket is a PHP array, which is an ordered map with value semantics. It
is modelled as its slots in iteration order. Each slot keeps its key and its
product id, so the holes that `unset` leaves are visible (`basket.dfy`). The
add and remove handlers are functions from the old array to the new one.
The cart loop is a method whose while loop is proved against the function
`LinesOf` (`cart_view.dfy`). The general facts about lists of ids live in
`seqs.dfy`:

- the first occurrence of a value;
- removal of that first occurrence;
- distinct values in order of first appearance;
- occurrence counts.

Format selection is in `negotiation.dfy`.

## Model

| member | source | states |
|---|---|---|
| Basket.FromList | public/index.php:247 | the array `json_decode` builds from a JSON list holds the listed ids under keys 0, 1, 2, ...; its keys are therefore distinct and ascending |
| Basket.NextIndex | public/index.php:248 | the key `$basket[] =` uses lies above every key in use, is one past some key in use, and is 0 for an empty array |
| Basket.AddCart | public/index.php:245-249 | the posted id is appended: the ids become the old ids followed by the new one; the old slots stay unchanged in front; the new slot is keyed by the next free key; the multiset of ids gains exactly that id; distinct and ascending keys are preserved |
| Basket.ArraySearch | public/index.php:291 | the search returns `false` exactly when the id is not in the basket; otherwise it returns the key of the first slot, in iteration order, that holds the id |
| Basket.Unset | public/index.php:292 | `unset` adds nothing and takes out at most one slot; one slot goes exactly when some slot has the key |
| Basket.UnsetAbsent | public/index.php:292 | unsetting a key the array does not hold leaves it unchanged |
| Basket.UnsetAt | public/index.php:292 | unsetting the key of a slot cuts out exactly that slot; all other slots keep their keys and order |
| Basket.RemoveCart | public/index.php:288-292 | remove-cart adds nothing and takes out at most one slot; one slot goes exactly when the posted id is in the basket or some slot has key 0, the key a failed search stands for |
| Basket.RemoveCartCuts | public/index.php:288-292 | when the posted key is in the basket, remove-cart cuts out the first slot holding it and nothing else |
| Basket.RemoveCartPresent | public/index.php:288-292 | when the key is present, the ids lose their first occurrence of it; its multiplicity drops by one and every other id's multiplicity stays; keys stay distinct, and ascending keys stay ascending |
| Basket.RemoveCartAbsent | public/index.php:291-292 | when the key is absent, the failed search acts as key 0: the slot keyed 0 is removed if there is one, which in an ascending basket is the first item; a basket without key 0 is unchanged |
| Basket.AddThenRemove | public/index.php:241-296 | add-cart followed by remove-cart of the same id restores the multiset of ids |
| Basket.AddNewThenRemove | public/index.php:241-296 | for an id not yet in the basket, add-cart then remove-cart gives back the very same array, keys included |
| Basket.AddCartExample | public/index.php:245-248 | adding 2 to the list [1, 1] gives [1, 1, 2] under keys 0, 1, 2 |
| Basket.RemoveCartExample | public/index.php:288-292 | removing 1 from [1, 1, 2] leaves ids [1, 2] under their old keys 1 and 2 |
| Basket.RemoveAbsentKeyDropsFirstItem | public/index.php:291-292 | removing the absent id 1 from the basket [2] empties it; the checked variant leaves it as it was |
| Basket.RemoveCartChecked | public/index.php:291-292 | corrected remove-cart: exactly one unit of the key is removed when present (its first occurrence), and the basket is unchanged when absent; keys stay distinct, and ascending keys stay ascending |
| CartView.CountValues | public/index.php:264 | `array_count_values` has as many entries as there are distinct ids, no two entries share an id, each entry's id is in the basket, and its count is that id's number of occurrences (at least 1) |
| CartView.CountValuesOrder | public/index.php:264 | every basket id has an entry, and the entries come in order of first appearance |
| CartView.CountValuesSum | public/index.php:264 | the counts of `array_count_values` add up to the number of items in the basket |
| CartView.Resolve | public/index.php:266-274 | the product is looked up by 1-based position (`$products[$key-1]`); a line is built exactly when that position exists and its name, price and image are all truthy; the line carries the id, those three fields and the id's count |
| CartView.LinesOf | public/index.php:265-277 | the loop produces exactly one line per entry of the counts |
| CartView.LinesOfStep | public/index.php:265-277 | each pass appends the resolved line when the product passes the name, price and image test, and otherwise appends the previous line (null on the first pass) |
| CartView.LinesOfOrigin | public/index.php:265-277 | every non-null line is the resolved line of the current entry or of an earlier one |
| CartView.CartLinesCounts | public/index.php:264-277 | the cart has one line per distinct basket id; every non-null line carries a basket id and that id's exact count |
| CartView.CartLinesJoin | public/index.php:266-276 | the line for an id whose product passes takes name, price and image from the product at position id - 1, with the id's count; the line for one that fails repeats the previous line, or is null first |
| CartView.ViewCart | public/index.php:260-277 | the foreach loop with `$newProduct` computes the lines of the counts; it has the counting and join properties above |
| CartView.AllResolvedCart | public/index.php:264-277 | when every product passes, there is a real line for each distinct id, in first-appearance order, and the line counts add up to the basket's length |
| CartView.CartExample | public/index.php:264-277 | the basket [1, 1, 2] with two complete products gives a line for id 1 with count 2, then a line for id 2 with count 1 |
| CartView.StaleLineRepeated | public/index.php:267-276 | for the basket [1, 3] with two complete products, the cart shows the line of id 1 twice; the skipping variant shows it once |
| CartView.FirstLineNull | public/index.php:267-276 | for the basket [3, 1], the first pass fails and the first line is null |
| CartView.SkippingLinesOf | public/index.php:265-277 | corrected aggregation: at most one line per entry, and every line is for a product that passes the test |
| CartView.SkippingLinesSpec | public/index.php:265-277 | corrected aggregation: every line is the resolved line of some entry, and every resolved entry is shown |
| CartView.SkippingLinesDistinct | public/index.php:265-277 | corrected aggregation: entries with distinct keys give lines with distinct keys |
| CartView.SkippingCartDistinct | public/index.php:264-277 | the corrected cart never shows an id twice |
| Negotiation.UsersFormat | public/index.php:41-63 | an empty query gives HTML; otherwise `format=json` gives JSON, `format=text` gives text, and any other query gives no body; each case holds in both directions and 404 never arises |
| Negotiation.FormatParamWins | public/index.php:52-56 | `format=json` gives JSON whatever other parameters the query holds |
| Negotiation.UnknownQueryHasNoBody | public/index.php:46-63 | a query without `format`, with an empty `format` or with `format=JSON` gives no body; `format=text` with another parameter gives text |
| Negotiation.StrStr | public/index.php:73-77 | `strstr` returns a value exactly when the needle occurs; the value is the suffix of the haystack that starts at the first occurrence of the needle |
| Negotiation.UsersByHeader | public/index.php:72-83 | JSON exactly when the Accept header contains application/json; text exactly when it contains text/plain but not application/json; 404 exactly when it contains neither |
| Negotiation.JsonWinsOverText | public/index.php:73-77 | the header "text/plain,application/json" gives JSON |
| Negotiation.QualityIgnored | public/index.php:73 | the header "application/json;q=0" still gives JSON |
| Negotiation.AcceptTextExample | public/index.php:77-81 | the header "text/plain" gives text |
| Negotiation.AcceptNotFoundExamples | public/index.php:83 | the headers "*/*" and "text/html" give 404 |

## Left out

- Data access: the database connection, the SQLite file and its WAL setting, and the queries are left out. The product list is a parameter; the user rows never enter the model.
- The user CRUD routes and the mapping of exceptions to HTTP status codes are not modelled; they are plain database calls.
- Rendering: Twig templates, `dump`, and the byte formats of `json_encode` and `serialize` are left out. A response is a tag (Html, Json, Text, NoBody, NotFound).
- The download route is not modelled.
- Redirects, `setcookie`, reading `$_COOKIE` and the method-override middleware are left out. The cookie's JSON round trip is treated as keeping the array, keys included, and an absent cookie is the empty basket.
- Basket.AddCart: a forged or invalid cookie (a non-array JSON value, negative or non-integer keys) is not modelled.
- Basket.ArraySearch: ids are integers. PHP's loose comparison between the posted string and the stored values is not modelled.
- Product prices are integers or strings. Floating-point prices are not modelled.
- Negotiation.UsersFormat: NoBody only records that the handler returns nothing. What the framework then sends is not modelled.
- Skipping products that fail the test would be the natural reading of the cart loop. The code instead appends the previous line, and lines keep first-appearance order rather than key order. The model follows the code (see Findings).

## Findings

| source | as written | input that shows it | evidently intended | confidence | as-written member | corrected member |
|---|---|---|---|---|---|---|
| public/index.php:291-292 | a failed `array_search` returns `false`, and `unset($basket[false])` removes key 0 | basket [2], posted key 1: the basket becomes empty | leave the basket unchanged when the key is not in it | high, not executed | Basket.RemoveAbsentKeyDropsFirstItem | Basket.RemoveCartChecked |
| public/index.php:267-276 | `$newProduct` is appended even when the product test fails, so the previous line repeats (or null on the first pass) | basket [1, 3] with two complete products: the line of id 1 appears twice | skip ids whose product fails the test | medium, not executed | CartView.StaleLineRepeated | CartView.SkippingCartDistinct |
