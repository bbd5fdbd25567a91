# Restaurant point-of-sale: a Dafny model of its ordering, loyalty and admin logic

The system is a restaurant point-of-sale with an Express/MySQL backend and a React
frontend. Customers browse the menu on a phone, build a cart, place dine-in or preorder
orders and pay part of them with discount vouchers bought with loyalty points. Admins
manage the menu, the customers, the orders, the feedback and the settings.

This project models the logic that decides what gets stored and what gets shown:

- **Backend controllers** (`order_backend.dfy`, `discount_backend.dfy`, `menu_backend.dfy`,
  `order_admin.dfy`, `customer_register.dfy`, `customer_controller.dfy`,
  `admin_controller.dfy`, `feedback_controller.dfy`).
  - The MySQL tables are the class `Tables.Db`. Each table is a `map` from primary key to
    row, with a next-id counter per table that has an auto-increment key.
  - Each SQL statement is one atomic update of those maps.
  - Each request handler is a method that `modifies` only the tables it writes. It returns
    a `Js.Response`, which is either the HTTP status with the JSON payload or the status
    with the error message.
  - Its `ensures` state the guard order, which tables change and how, and that a refused
    request changes nothing.
- **Read-only backend** (`invoice_controller.dfy`, `menu_controller.dfy`). These are
  functions over the tables' maps or over plain values.
- **Request inputs** (`js.dfy`). Inputs arrive as JavaScript values: an id may be absent, a
  number or a string, and a setting is text. `js.dfy` models the JavaScript coercions
  the handlers rely on: `Number`, `parseFloat`, `parseInt`, truthiness, `trim`,
  `toLowerCase`, `includes` and digit stripping.
- **Frontend pages** (`menu_items_mobile.dfy`, `cart_mobile.dfy`, `admin_menu.dfy`,
  `admin_crm.dfy`, `profile_mobile.dfy`, `customer_register_mobile.dfy`,
  `admin_orders.dfy`, `admin_feedback.dfy`, `discount_rewards_mobile.dfy`,
  `invoice_mobile.dfy`, `history_details_mobile.dfy`).
  - A React state setter is a function from the old state to the new one.
  - Where the page builds its result step by step, the model is a method that takes the
    same steps, proved equal to a one-pass specification function:
    - the filter chains of the admin menu, order and feedback pages, and the profile
      validator, apply their passes or checks one after another;
    - the add-to-cart merge is a loop over the cart.
  - The order endpoint's per-line writes are a loop too, proved equal to the stock and
    sales tables the whole order produces.

Money is an exact `real`. Stock, quantities and points are integers. Timestamps are
ordered integers.

Across the files, the lemmas connect the pages to the backend. They show:

- for each variant, what the menu page lets a customer put in the cart and select stays within the item's stock;
- the cart's final total is the total the order endpoint stores;
- the invoice page's total payable is the stored total;
- an enabled Redeem button never meets the endpoint's "Not enough points" refusal;
- registration keeps names, emails and phones unique, and profile updates keep emails and phones unique (names are not checked there).

## Model

| member | source | states |
|---|---|---|
| Tables.Select | backend/controller/orderBackendController.js:86-92 | `SELECT ... WHERE`: exactly the keys in range whose rows satisfy the condition, strictly ascending |
| Tables.SelectAll | backend/controller/orderBackendController.js:86-92 | over the whole key range, the selection is exactly the table's rows that satisfy the condition |
| Tables.First | backend/controller/orderBackendController.js:28-34 | `discountResult[0]`: nothing iff no row satisfies the condition; otherwise a satisfying row with no satisfying row before it |
| Tables.InsertDescSorted | backend/controller/orderBackendController.js:90 | inserting into a list sorted newest first keeps it sorted |
| Tables.SortDesc | backend/controller/orderBackendController.js:90 | `ORDER BY ... DESC`: a permutation of the rows, largest key first |
| Tables.SortDescMembers | backend/controller/orderBackendController.js:90 | sorting neither adds nor drops a row |
| OrderBackend.SubTotal | backend/controller/orderBackendController.js:39 | the subtotal, the sum of the lines' `total_price`, is at least 0 when every line total is |
| OrderBackend.ActualDiscount | backend/controller/orderBackendController.js:40 | the granted discount is the claimed one (0 when none is claimed) or the subtotal, and at most both |
| OrderBackend.FinalTotal | backend/controller/orderBackendController.js:41 | the stored total is never negative: subtotal minus discount, or 0 |
| OrderBackend.TotalsBounded | backend/controller/orderBackendController.js:39-41 | with a non-negative subtotal and claim, discount and total both lie in [0, subtotal] and add up to the subtotal |
| OrderBackend.ConversionRate | backend/controller/orderBackendController.js:42-45 | the rate is never 0: a missing, unparsable or zero setting gives 10, otherwise the parsed setting |
| OrderBackend.MembershipPoints | backend/controller/orderBackendController.js:46 | the points are the floor of subtotal / rate |
| OrderBackend.EarnedPointsNonNegative | backend/controller/orderBackendController.js:46 | a non-negative subtotal at a positive rate earns at least 0 points |
| OrderBackend.ResolveDiscount | backend/controller/orderBackendController.js:26-35 | a missing or blank code gives no discount id, as does an unknown one (no error); a found id names a discount with exactly that code, and a known code is always found |
| OrderBackend.Decrement | backend/controller/orderBackendController.js:60-63 | only the line's item changes, and only its stock: it drops by the quantity when enough remains and stays otherwise; stock never goes negative |
| OrderBackend.StockAfter | backend/controller/orderBackendController.js:54-64 | the guarded decrements of all lines keep the same items, keep stock non-negative and leave items no line names untouched |
| OrderBackend.SalesAfterKeepsOld | backend/controller/orderBackendController.js:54-58 | inserting the order's sale rows keeps every existing sale row |
| OrderBackend.SalesAfterKeys | backend/controller/orderBackendController.js:54-58 | the only new sale keys are the next `|sales|` keys |
| OrderBackend.SalesAfterRows | backend/controller/orderBackendController.js:54-58 | every line gets its own sale row (remarks `|| null`), line j under key next + j |
| OrderBackend.Credit | backend/controller/orderBackendController.js:65-68 | the customer's points rise by exactly the given amount and no other customer changes |
| OrderBackend.PreorderStored | backend/controller/orderBackendController.js:16-37 | the stored pickup time is NULL exactly when none was sent |
| OrderBackend.Pad | backend/controller/orderBackendController.js:19 | `pad` gives at least two digits (exactly two below 100) that read back as the number |
| OrderBackend.LeadingZero | backend/controller/orderBackendController.js:19 | a leading '0' does not change the value of a digit string |
| OrderBackend.NewOrder | backend/controller/orderBackendController.js:4-52 | the order row's discount is at most the subtotal, its total is at least 0, and a preorder row carries its pickup time |
| OrderBackend.PlaceOrder | backend/controller/orderBackendController.js:3-71 | a missing, non-numeric or fractional customerId, then missing or empty sales, then a preorder without a time are refused with 400 and nothing written; otherwise the order row under the next key, one sale row per line, the guarded stock decrements and the points credit are exactly the new state, and stock stays non-negative |
| OrderBackend.Commit | backend/controller/orderBackendController.js:26-68 | the writes of an accepted order: the order row, the sale rows, the stock and the points credit, as in PlaceOrder |
| OrderBackend.InsertOrder | backend/controller/orderBackendController.js:48-52 | the order row takes the next key, which is returned |
| OrderBackend.CreditPoints | backend/controller/orderBackendController.js:65-68 | the customers table becomes `Credit` of the old one |
| OrderBackend.RecordLines | backend/controller/orderBackendController.js:54-64 | the loop leaves the menu as `StockAfter` and the sales as `SalesAfter` of the lines, with the sale counter advanced by the number of lines |
| OrderBackend.SalesAfterSnoc | backend/controller/orderBackendController.js:54-58 | one more line adds exactly one sale row under the next key |
| OrderBackend.StockAfterSnoc | backend/controller/orderBackendController.js:60-63 | one more line applies exactly one more guarded decrement |
| OrderBackend.SettingOf | backend/controller/orderBackendController.js:42-45 | `rateResult[0]?.setting_value`: the row's value if the key is stored, nothing otherwise |
| OrderBackend.OrderKeepsPointsNonNegative | backend/controller/orderBackendController.js:42-68 | with non-negative line totals and a setting that is not negative, the credit keeps every customer's points non-negative |
| OrderBackend.Summaries | backend/controller/orderBackendController.js:86-92 | one summary per given order id, in the order of the ids, each the selected columns of that order |
| OrderBackend.GetOrdersByCustomerId | backend/controller/orderBackendController.js:78-94 | a missing, non-numeric or fractional id is 400; otherwise exactly that customer's orders, each once (no two rows share an order id), newest first |
| DiscountBackend.Bump | backend/controller/discountBackendController.js:32-47 | the upsert: the pair's counter becomes old + 1, or 1 when no row existed; no other pair changes, no second row for the pair appears, and non-negative counters stay non-negative |
| DiscountBackend.RedeemDiscount | backend/controller/discountBackendController.js:14-52 | an unknown customer, then an unknown discount, are 404 and write nothing; past them the outcome is `RedeemedFrom`: success exactly when the points cover `points_required`; points and counters stay non-negative |
| DiscountBackend.RedeemFound | backend/controller/discountBackendController.js:28-52 | with both rows found: below `points_required` a 400 that writes nothing; at or above it always success, with the counter upsert, the debit and the code and amount in the answer (`RedeemedFrom`); the debited points stay at least 0 |
| DiscountBackend.Redeem | backend/controller/discountBackendController.js:32-47 | the counters become `Bump` of the old ones |
| DiscountBackend.Debit | backend/controller/discountBackendController.js:49-50 | a customer holding at least `p` points loses exactly `p`, no other customer changes, and every customer's points stay non-negative |
| DiscountBackend.DiscountByCode | backend/controller/discountBackendController.js:63-64 | a found id names a discount with exactly that code; nothing is found for a missing code or one no discount has |
| DiscountBackend.UsesOf | backend/controller/discountBackendController.js:66-69 | the pair's `remaining_uses`, present exactly when the customer id is a number and the pair has a row |
| DiscountBackend.ApplyDiscount | backend/controller/discountBackendController.js:59-94 | an unknown code is 404; past it the outcome is `Applied`: no row or no remaining use is 400, then an order that already has a discount is 400, an error writes nothing; with a use left and no discount on the order it always succeeds, recording the discount on the order (if the id names one) and consuming exactly one use; counters stay non-negative |
| DiscountBackend.UseDiscount | backend/controller/discountBackendController.js:66-94 | the part of `POST` apply after the code lookup meets `Applied`: refused exactly for no use left or an already discounted order, and otherwise applied; counters stay non-negative |
| DiscountBackend.AppliedRefused | backend/controller/discountBackendController.js:71-82 | each refusal, with nothing written, is an outcome `Applied` allows |
| DiscountBackend.AppliedOk | backend/controller/discountBackendController.js:84-94 | the order update and the one-use decrement, answered with the amount, are the success `Applied` allows |
| DiscountBackend.MarkOrder | backend/controller/discountBackendController.js:84-87 | the order the id names takes the amount and the discount id and nothing else changes; an id naming no order changes no order |
| DiscountBackend.RecordDiscount | backend/controller/discountBackendController.js:84-87 | the orders table becomes `MarkOrder` of the old one |
| DiscountBackend.ConsumeUse | backend/controller/discountBackendController.js:89-92 | a positive counter drops by exactly 1, so counters stay non-negative |
| DiscountBackend.CreateDiscount | backend/controller/discountBackendController.js:112-120 | one row with the four fields under the next key, answered 201 |
| DiscountBackend.UpdateDiscount | backend/controller/discountBackendController.js:127-135 | all four fields of that id are overwritten; an unknown id changes nothing and is still a success |
| DiscountBackend.DeleteDiscount | backend/controller/discountBackendController.js:142-146 | exactly that id is removed; the answer is success either way |
| MenuBackend.MissingField | backend/controller/menuBackendController.js:40 | a price that is the number 0 or empty text counts as missing, while a stock of 0 or empty text never does: only a missing stock is refused |
| MenuBackend.Stored | backend/controller/menuBackendController.js:44-49 | the row the insert stores exists exactly when the price and the stock read as numbers and the stock is whole; it then holds the request's name, description, category and image URL, those numbers, and `is_available` 1 |
| MenuBackend.ZeroValuesGuard | backend/controller/menuBackendController.js:40-49 | with the other fields present, a price typed as the text "0" passes the guard and is stored as price 0, and a stock of 0 as number or text passes too; the number 0 as price is refused |
| MenuBackend.EmptyStockText | backend/controller/menuBackendController.js:40-49 | empty stock text passes the `== null` test, and the insert then fails |
| MenuBackend.AddMenuItem | backend/controller/menuBackendController.js:37-56 | a missing field (see MissingField) is 400 and writes nothing; a price or stock the database refuses is 500 "Failed to add item" and writes nothing; otherwise exactly the stored row under the next key |
| MenuBackend.Toggled | backend/controller/menuBackendController.js:68-69 | the new flag is 0 or 1, and it is 1 exactly when the old one was not 1 |
| MenuBackend.ToggleTwice | backend/controller/menuBackendController.js:68-71 | toggling twice restores a 0 or 1 flag; any other stored value ends up 0 |
| MenuBackend.FlagMenuItem | backend/controller/menuBackendController.js:58-76 | an unknown item is 404 and nothing changes; otherwise only that item's flag is toggled and the new value answered |
| MenuBackend.UpdateStock | backend/controller/menuBackendController.js:84-93 | only that item's stock is overwritten with the absolute value sent, with no check; an unknown id changes nothing; a non-negative value keeps stock non-negative |
| MenuBackend.DeleteMenuItem | backend/controller/menuBackendController.js:100-104 | exactly that item is removed |
| MenuBackend.Edited | backend/controller/menuBackendController.js:116-121 | the six edited fields take the sent values and `is_available` is kept |
| MenuBackend.UpdateMenuItem | backend/controller/menuBackendController.js:111-123 | only that item changes, to `Edited` of it; an unknown id changes nothing and is still a success |
| OrderAdmin.FormatOrder | backend/controller/orderAdminController.js:25-32 | a NULL total or discount becomes 0, NULL points become 0, an empty pickup time becomes NULL, a missing or empty status becomes "Preparing"; every other column is passed through |
| OrderAdmin.FormatOrders | backend/controller/orderAdminController.js:25-34 | one formatted row per row, in the same order |
| OrderAdmin.DeleteOrders | backend/controller/orderAdminController.js:41-50 | a missing or empty id list is refused with 400 and writes nothing; any other list succeeds and removes exactly the listed orders |
| OrderAdmin.UpdateOrderStatus | backend/controller/orderAdminController.js:57-69 | a falsy id or a status outside Preparing, Completed, Cancelled is refused and writes nothing; any other request succeeds, any allowed status replaces any other, and only `status` of that order changes |
| CustomerRegister.Register | backend/controller/customerRegister.js:3-41 | the phone format `^[0-9-]{7,12}$` is checked before any lookup; then a taken name, a taken email and a taken phone are refused, in that order, and every refusal writes nothing; success happens exactly when all four pass and inserts one customer with 0 points under the returned new id; unique names, emails and phones stay unique, and points stay non-negative |
| CustomerRegister.InsertCustomer | backend/controller/customerRegister.js:36-41 | a customer whose name, email and phone nobody holds is inserted under the next key, which is returned, and uniqueness is kept |
| CustomerRegister.PhoneFormatOk | backend/controller/customerRegister.js:7 | `^[0-9-]{7,12}$`: 7 to 12 digits or dashes; a phone of digits only passes exactly when it is 7 to 12 long, and a passing phone has at most 12 digits |
| CustomerController.EmailValid | backend/controller/customerController.js:117 | `^[^\s@]+@[^\s@]+\.[^\s@]+$`: an accepted address is at least 5 characters long, contains '@' and does not start with it |
| CustomerController.EmailValidShape | backend/controller/customerController.js:117 | an address matching `^[^\s@]+@[^\s@]+\.[^\s@]+$` has exactly one '@' and no white space |
| CustomerController.SplitChars | backend/controller/customerController.js:117 | plain characters on both sides of the '@' make the whole address free of white space and of any other '@' |
| CustomerController.GetProfile | backend/controller/customerController.js:83-101 | a falsy id is 400, an id naming no customer is 404; an existing customer always gets its name, email, phone and points |
| CustomerController.Updated | backend/controller/customerController.js:141-151 | name, email and phone take the sent values, the password changes only for a non-empty new one, the points are kept |
| CustomerController.UpdateProfile | backend/controller/customerController.js:109-153 | four fields required (400), then the email format (400), then an email (409) or a phone (409) held by another customer, in that order; every refusal writes nothing; success exactly when all pass, and then only that customer changes, to `Updated` of it; a customer's own email and phone are allowed; unique emails and phones stay unique |
| CustomerController.UpdateUnique | backend/controller/customerController.js:122-153 | the two 409 checks in order and the update they guard; uniqueness of emails and phones is kept |
| CustomerController.WriteProfile | backend/controller/customerController.js:141-151 | the update of one customer whose email and phone no other holds keeps emails and phones unique |
| CustomerController.UpdateProfileMayDuplicateNames | backend/controller/customerController.js:122-151 | names are not checked: an accepted profile update can give two customers the same name |
| CustomerController.UpdateCustomer | backend/controller/customerController.js:219-238 | three fields required (400), then a phone held by another customer is 409, and refusals write nothing; otherwise it succeeds and only that customer's name and phone change; unique phones stay unique |
| CustomerController.WriteNameAndPhone | backend/controller/customerController.js:234-237 | the update of a customer whose phone no other holds keeps phones unique |
| CustomerController.DeleteCustomer | backend/controller/customerController.js:245-255 | 404 exactly when no row was removed; an existing customer is always removed, and only that one |
| CustomerController.RankedRows | backend/controller/customerController.js:181-184 | one row per customer (as many rows as customers, each a customer's and every customer's present), most points first |
| CustomerController.GetTopCustomers | backend/controller/customerController.js:179-188 | the first three ranked rows (all of them when there are fewer), so no row repeats; most points first; a customer left out means 3 are listed, each with at least as many points |
| CustomerController.RowsOfAll | backend/controller/customerController.js:181-184 | sorting the rows of every key lists every customer and only customers |
| CustomerController.TopCut | backend/controller/customerController.js:184-185 | a prefix of a list sorted by points is sorted and holds at least the points of everyone it cuts off |
| AdminController.RegisterAdmin | backend/controller/adminController.js:35-49 | an empty username or password is 400, then a taken username is 409, and refusals write nothing; any other request succeeds with one admin under the next key; unique usernames stay unique |
| AdminController.UpdateAdmin | backend/controller/adminController.js:56-66 | both fields required (400, nothing written); with both filled it always succeeds and overwrites that admin's row without looking at other usernames; an unknown id changes nothing |
| AdminController.UpdateAdminMayDuplicateUsernames | backend/controller/adminController.js:60-65 | an accepted update can leave two admins with one username |
| AdminController.DeleteAdmin | backend/controller/adminController.js:73-78 | exactly that admin is removed; the answer is success either way |
| AdminController.GetPointsConversionRate | backend/controller/adminController.js:85-95 | 404 exactly when the settings row is missing; otherwise its stored value |
| AdminController.UpdatePointsConversionRate | backend/controller/adminController.js:101-113 | a missing, non-numeric or non-positive rate is 400 and nothing changes; any other rate succeeds and the existing settings row takes it, and no row is created |
| AdminController.AcceptedRateIsUsed | backend/controller/adminController.js:104-112 | a rate the guard accepts is, read back by the order endpoint, exactly the positive number the guard checked |
| AdminController.GetLowStockAmount | backend/controller/adminController.js:158-168 | 404 exactly when the settings row is missing; otherwise its stored value |
| AdminController.UpdateLowStockAmount | backend/controller/adminController.js:141-152 | a falsy (including 0) or non-numeric threshold is 400 and nothing changes; any other succeeds and the existing settings row takes it |
| AdminController.ThresholdSetting | backend/controller/adminController.js:127 | a missing or falsy setting reads as "3", any other as stored |
| AdminController.LowRows | backend/controller/adminController.js:129-132 | exactly the items with `available_amount <= t`, with their id, name and stock, in key order |
| AdminController.GetLowStockItems | backend/controller/adminController.js:120-134 | the threshold is `parseInt` of the setting; a NaN threshold fails with 500; otherwise exactly the items at or below it |
| AdminController.DefaultThreshold | backend/controller/adminController.js:127 | with no stored threshold the threshold is 3 |
| AdminController.DigitThresholdRoundTrip | backend/controller/adminController.js:127-150 | a positive whole threshold is accepted when written and is the threshold read back |
| AdminController.BlankThresholdAcceptedButUnreadable | backend/controller/adminController.js:127-150 | a blank " " passes the write guard but reads back as NaN, so the low-stock list then fails |
| FeedbackController.RatingOf | backend/controller/feedbackController.js:26 | an absent rating is stored as NULL, a number as itself; any other value is stored as what `parseFloat` reads from it, and is refused (None) exactly when that is NaN |
| FeedbackController.OwnerOf | backend/controller/feedbackController.js:17-22 | None exactly when no customer holds the phone number; otherwise a customer whose phone number it is |
| FeedbackController.SubmitFeedback | backend/controller/feedbackController.js:3-36 | a missing phone number is 401 before a missing text is 400; a rating that is not a number fails the INSERT (500); every refusal writes nothing; success is 201 exactly when all three pass and adds one feedback under a fresh id, linked to the phone number's owner or to nobody, stamped `now` |
| FeedbackController.JoinRow | backend/controller/feedbackController.js:43 | the LEFT JOIN row keeps the feedback's id, time and customer id, and carries the customer's name exactly when that customer still exists |
| FeedbackController.GetAllFeedbacks | backend/controller/feedbackController.js:40-44 | newest first (`ORDER BY created_at DESC`), one row per stored feedback: every row is the join of a stored feedback and every stored feedback's join is listed |
| FeedbackController.JoinedRows | backend/controller/feedbackController.js:43 | the joined rows built from the selected ids are exactly the feedbacks' joins and as many as the feedbacks |
| FeedbackController.JoinedRowsOf | backend/controller/feedbackController.js:43 | rows built position by position from ids holding exactly the feedbacks' keys contain every feedback's join and nothing else |
| Tables.KeysCount | backend/controller/feedbackController.js:43 | a strictly increasing id list holding exactly the table's keys has one entry per row, so the list neither loses nor repeats a row |
| Tables.DistinctCount | backend/controller/feedbackController.js:43 | a strictly increasing list has as many distinct values as entries |
| InvoiceController.InvoiceItems | backend/controller/invoiceController.js:11-13 | the inner join of the order's sales with the menu: each row is a sale of that order whose item still exists, with the item's name, price and image; every such sale is listed. The query has no ORDER BY, so SQL leaves the row order unspecified; the model lists the rows in sale-id order |
| InvoiceController.GetInvoice | backend/controller/invoiceController.js:3-36 | a falsy id is 400 (and only then); no joinable sale rows is 404 "Invoice not found", decided before a missing order (404 "Order not found"); an answer carries the order's rows, its stored `total_price` as the final total and its stored discount, time, points, type and pickup time; it succeeds whenever the order exists and has rows |
| InvoiceController.OrphanSalesReachOrderCheck | backend/controller/invoiceController.js:15-25 | sales rows whose order is gone get "Order not found", not "Invoice not found" |
| MenuController.InitialQuantities | backend/controller/menuController.js:14-18 | exactly the listed items' ids are keys, each at 0 |
| MenuController.Increment | backend/controller/menuController.js:24-29 | the item's count goes up by one from its count or 0; it gains a key if it had none; every other count is unchanged |
| MenuController.Decrement | backend/controller/menuController.js:31-36 | a positive count goes down by one, anything else becomes 0, so the count is never negative; every other count is unchanged |
| MenuController.DecrementUndoesIncrement | backend/controller/menuController.js:24-36 | '-' right after '+' restores the map exactly, for a listed item whose count is not negative |
| MenuController.CountsStayNonNegative | backend/controller/menuController.js:24-36 | '+' and '-' both keep every count non-negative |
| MenuController.LineOf | backend/controller/menuController.js:41-47 | a cart line carries the item, its count and `total_price = quantity * price` |
| MenuController.Checkout | backend/controller/menuController.js:38-47 | only items with a positive count; each line is the line of a listed item; every listed item with a positive count has its line |
| MenuController.CheckoutAppend | backend/controller/menuController.js:39-47 | checkout of two runs of the menu is the checkout of the first followed by the second's, so menu order is kept |
| MenuController.CheckoutOfInitial | backend/controller/menuController.js:14-18 | with the initial quantities, checkout of any listed items is empty |
| Js.ToLower | frontend/src/pages/Admin/AdminFeedback.js:73-74 | `toLowerCase()` keeps the length and lower-cases exactly the upper-case ASCII letters, position by position |
| Js.TrimStart | backend/controller/orderBackendController.js:27 | a suffix of the input that does not start with JavaScript white space (Unicode space separators, no-break space and BOM included), everything cut off being white space |
| Js.TrimEnd | backend/controller/orderBackendController.js:27 | a prefix of the input that does not end with JavaScript white space, everything cut off being white space |
| Js.Trim | backend/controller/orderBackendController.js:27 | `trim()` is a contiguous slice of the input that neither starts nor ends with white space, and everything cut off on either side is white space |
| Js.TrimWithoutSpace | frontend/src/pages/Admin/AdminCRM.js:224 | a string with no white space trims to itself |
| Js.BlankTrim | frontend/src/pages/Admin/AdminFeedback.js:72 | `s.trim() === ''` exactly when every character of `s` is white space |
| Js.TrimIdempotent | frontend/src/pages/Admin/AdminMenu.js:119 | trimming twice is trimming once |
| Js.DigitsOf | frontend/src/pages/Admin/AdminCRM.js:23 | `replace(/\D/g, '')` leaves only digits and is no longer than its input; an all-digit string comes back as it is and a string without digits as ""; with DigitsOfAppend this pins the result to the input's digits, in order |
| Js.DigitsOfAppend | frontend/src/pages/Admin/AdminCRM.js:93 | digit extraction of a concatenation is the concatenation of the extractions |
| Js.DigitsSurviveTrim | frontend/src/pages/Admin/AdminCRM.js:23 | a string holding a digit does not trim to "" |
| Js.ParseFloat | backend/controller/orderBackendController.js:45 | `parseFloat` reads a signed decimal prefix after leading white space; NaN (None) when there is none |
| Js.ToNumber | backend/controller/adminController.js:104 | `Number(s)` of a blank string is 0 |
| Js.ParseFloatAgreesWithNumber | backend/controller/adminController.js:104 | where `Number(s)` reads a non-blank decimal, `parseFloat(s)` reads the same value, so a rate that passes `isNaN` is the rate that `parseFloat` later reads |
| Js.NatToString | backend/controller/adminController.js:150 | `toString()` of a natural number is a non-empty run of digits |
| Js.ParseIntOfNatToString | backend/controller/adminController.js:127-150 | `parseInt(n.toString()) === n`: a stored threshold reads back as the number written |
| Js.NatToStringInjective | backend/controller/adminController.js:150 | distinct thresholds are stored as distinct strings |
| Js.ParseIntOfDigits | backend/controller/adminController.js:127 | `parseInt` of a non-empty digit run is the number it writes |
| Js.NumberOfDigits | backend/controller/adminController.js:143 | `Number` of a non-empty digit run is the number it writes |
| Js.IdOf | backend/controller/orderBackendController.js:6 | a numeric id is itself, a missing id is none; a string id is the integer `Number` reads from it |
| Js.NumberOf | backend/controller/adminController.js:104 | `Number(v)`: a number is itself, undefined is NaN, a string is read by `Number(s)` |
| Js.ParseFloatOf | backend/controller/feedbackController.js:26 | `parseFloat(v)` of a number is the number |
| Js.ParseIntOf | backend/controller/adminController.js:127 | `parseInt(v)` of a non-negative number drops its fraction |
| Js.CountOr0 | backend/controller/menuController.js:27 | `counts[key] \|\| 0`, the lookup shared by the menu quantities, the selected variants and the rewards page's remaining uses: the stored count, or 0 for a key with no entry |
| AdminCrm.NormalizePhone | frontend/src/pages/Admin/AdminCRM.js:23 | only digits remain, never more characters than the input; an all-digit phone is kept whole, one without digits becomes "", and normalising again changes nothing |
| AdminCrm.Take | frontend/src/pages/Admin/AdminCRM.js:26 | `slice(0, n)`: the first `min(n, length)` characters |
| AdminCrm.Layout | frontend/src/pages/Admin/AdminCRM.js:27-28 | up to three digits are left as they are; longer runs get one dash after the third digit, and the dash is the only character added |
| AdminCrm.FormatPhone | frontend/src/pages/Admin/AdminCRM.js:25-29 | normalising the formatted text gives the first 11 digits of the input; at most 12 characters; a dash in fourth place once there are more than three digits |
| AdminCrm.FormatPhoneIdempotent | frontend/src/pages/Admin/AdminCRM.js:25-29 | formatting an already formatted number changes nothing |
| AdminCrm.FormattedInputAtMostEleven | frontend/src/pages/Admin/AdminCRM.js:428 | whatever is typed into the phone input, at most 11 digits are kept; a number of at most 11 digits keeps all of them |
| AdminCrm.NameError | frontend/src/pages/Admin/AdminCRM.js:414-423 | the name is accepted exactly when it is not all white space and at least 2 characters long; a blank name is "Name is required.", a one-character one "Name should be at least 2 characters." |
| AdminCrm.MobileDigits | frontend/src/pages/Admin/AdminCRM.js:434 | `^01\d{8,10}$` on the digits: an accepted value is 10 to 12 digits starting "01", and normalising it changes nothing |
| AdminCrm.PhoneError | frontend/src/pages/Admin/AdminCRM.js:431-438 | accepted exactly when the digits are "01" and 8 to 10 more; no digits at all is "Phone number is required.", anything else refused is "Use a valid phone number" |
| AdminCrm.Matches | frontend/src/pages/Admin/AdminCRM.js:87-96 | a customer matches two empty boxes; a phone box with no digits filters nothing, so the name box alone decides |
| AdminCrm.HandleFilter | frontend/src/pages/Admin/AdminCRM.js:85-99 | exactly the customers whose name contains the name box ignoring case and whose phone digits contain the phone box's digits, an empty box not filtering, in list order |
| AdminCrm.HandleFilterAppend | frontend/src/pages/Admin/AdminCRM.js:85-99 | the filter distributes over concatenation, so the matches keep the list's order |
| AdminCrm.PhoneSearchOnDigits | frontend/src/pages/Admin/AdminCRM.js:92-96 | a formatted search number finds what the raw number finds (up to 11 digits), and a phone box with no digit filters nothing out |
| AdminCrm.OpenEdit | frontend/src/pages/Admin/AdminCRM.js:101-108 | the form opens on the stored name and a phone whose digits are the stored phone's first 11 |
| AdminCrm.SaveEdit | frontend/src/pages/Admin/AdminCRM.js:222-242 | "No changes to save." (None) exactly when the trimmed name and the phone digits equal the stored ones; otherwise the update carries the customer's id, the trimmed name and the digits only |
| AdminCrm.ValidatedSaveHasFields | frontend/src/pages/Admin/AdminCRM.js:222-242 | a save that passes the form's name and phone rules sends a non-empty name and a non-empty phone, so the customer update endpoint's "required" refusal is not met from this form |
| AdminCrm.CanSave | frontend/src/pages/Admin/AdminCRM.js:213-220 | Save is enabled only for a selected customer, no field error and a field that differs from the stored text; both fields holding the stored text disable it |
| AdminCrm.SaveEnabledWithoutChange | frontend/src/pages/Admin/AdminCRM.js:213-235 | right after opening a customer with a plain 4- to 11-digit phone, Save is enabled although nothing changed, and saving answers "No changes to save." |
| AdminCrm.TwelveDigitPhoneTruncated | frontend/src/pages/Admin/AdminCRM.js:25-29 | a 12-digit phone that the register and the validator accept is cut to 11 digits by the form, so saving, even unchanged, sends the phone without its last digit |
| AdminCrm.FormattedKeepsEleven | frontend/src/pages/Admin/AdminCRM.js:26 | formatting an all-digit number of at least 11 digits keeps exactly its first 11 |
| AdminCrm.FormatPhoneKeepingTwelve | frontend/src/pages/Admin/AdminCRM.js:25-29 | the corrected formatter: normalising its output gives the first 12 digits of the input |
| AdminCrm.OpenEditKeepingTwelve | frontend/src/pages/Admin/AdminCRM.js:101-108 | the corrected form opens on the stored name and the stored phone's first 12 digits |
| AdminCrm.UnchangedEditIsNoOp | frontend/src/pages/Admin/AdminCRM.js:222-235 | with 12 digits kept, saving an unchanged edit of any phone the register accepted sends nothing |
| AdminCrm.ChangePercent | frontend/src/pages/Admin/AdminCRM.js:59-61 | 100 when yesterday had no active customer and today has some, 0 when both had none; otherwise positive exactly when today is higher, negative exactly when lower, never below -100 |
| AdminMenu.MeetsAllAppend | frontend/src/pages/Admin/AdminMenu.js:232-258 | meeting a run of filter steps followed by another is meeting both runs |
| AdminMenu.Keep | frontend/src/pages/Admin/AdminMenu.js:232-258 | the rows meeting every step, in their order, and never more rows than given |
| AdminMenu.KeepAppend | frontend/src/pages/Admin/AdminMenu.js:232-258 | filtering keeps list order: it distributes over concatenation |
| AdminMenu.KeepNone | frontend/src/pages/Admin/AdminMenu.js:233 | with no step active every row stays, in order |
| AdminMenu.KeepSnoc | frontend/src/pages/Admin/AdminMenu.js:232-258 | filtering an already filtered list by one more step equals filtering once by all the steps |
| AdminMenu.Active | frontend/src/pages/Admin/AdminMenu.js:235-255 | the steps switched on by the inputs, in the order the page applies them; none when every input is cleared |
| AdminMenu.ActiveMeansPasses | frontend/src/pages/Admin/AdminMenu.js:235-255 | meeting every active step is exactly passing the page's condition: the selected category, both minimum sales (a box that is not a number passes nothing) and a name containing the box ignoring case (a null name never matches) |
| AdminMenu.MeetsAllOne | frontend/src/pages/Admin/AdminMenu.js:232-258 | a run of at most one step is met exactly when that step is |
| AdminMenu.ApplyFilters | frontend/src/pages/Admin/AdminMenu.js:232-258 | the list narrowed step by step is the one-pass selection under all active steps, and holds exactly the loaded rows that pass every active filter |
| AdminMenu.UnparsableMinimumKeepsNothing | frontend/src/pages/Admin/AdminMenu.js:239-243 | a minimum-sales box that `parseFloat` reads as NaN empties the list |
| AdminMenu.ResetShowsAll | frontend/src/pages/Admin/AdminMenu.js:265-272 | the reset shows the whole list, which is what applying the cleared inputs shows |
| AdminMenu.LowStockView | frontend/src/pages/Admin/AdminMenu.js:613-620 | a warning exactly when no threshold is loaded; otherwise exactly the rows whose stock is at most the threshold, in order |
| AdminMenu.LowStockRows | frontend/src/pages/Admin/AdminMenu.js:615 | the low-stock filter keeps exactly the rows with stock at most the threshold |
| AdminMenu.ViewAfterReload | frontend/src/pages/Admin/AdminMenu.js:289-312 | after a stock update the reloaded list is shown as the low-stock view when that view was on and a threshold is known, and through the active filters otherwise |
| AdminMenu.RefreshCounters | frontend/src/pages/Admin/AdminMenu.js:85-93 | every listed item gains a counter at 0, counters already present keep their value, and no other key appears |
| AdminMenu.SnapshotStock | frontend/src/pages/Admin/AdminMenu.js:277 | the stock of the first listed row with that id, or 0 when none has it |
| AdminMenu.ConfirmStockUpdate | frontend/src/pages/Admin/AdminMenu.js:274-287 | one absolute stock per counter, the snapshot stock plus the counter, then every counter reset to 0, with no key added or lost |
| AdminMenu.PlusThenConfirm | frontend/src/pages/Admin/AdminMenu.js:434-441 | '+' then confirm sends the snapshot stock plus one; confirming again sends the snapshot stock itself |
| AdminMenu.MinusAtZero | frontend/src/pages/Admin/AdminMenu.js:415-421 | '-' on a zero counter leaves the counters as they were, so confirming changes no stock |
| AdminMenu.NumberOr0 | frontend/src/pages/Admin/AdminMenu.js:121-122 | `Number(v) \|\| 0`: NaN becomes 0, any number stays |
| AdminMenu.EditPayloadOf | frontend/src/pages/Admin/AdminMenu.js:118-125 | the name is the trimmed name (a missing one "") and starts and ends with no white space; the description is the one typed (a missing one ""); price and stock are their `Number` values, or 0 when that is NaN; the category is `Number` of the input; the image URL is sent as typed, except that a missing or empty one is sent as null |
| AdminMenu.EditPayloadStable | frontend/src/pages/Admin/AdminMenu.js:118-125 | saving the payload's own values again sends the same payload |
| AdminMenu.ReloadedPayload | frontend/src/pages/Admin/AdminMenu.js:118-125 | a payload whose name is already trimmed and whose image URL is not empty text is sent back unchanged from a form holding its own values |
| AdminMenu.AddItemGuard | frontend/src/pages/Admin/AdminMenu.js:202-209 | the reset form is refused with "Please fill all fields", while a stock typed as "0" passes: with the other fields filled, only an empty stock box is refused |
| AdminMenu.AddItemRefused | frontend/src/pages/Admin/AdminMenu.js:203 | "Please fill all fields" for an empty name, price text or stock text, or a missing or zero category |
| AdminMenu.PageGuardAgrees | frontend/src/pages/Admin/AdminMenu.js:202-207 | once an image is uploaded, the page's guard and the endpoint's guard on the posted body refuse the same forms, except empty stock text, which only the page refuses; a price typed as "0" passes both |
| AdminOrders.Select | frontend/src/pages/Admin/AdminOrders.js:42-60 | exactly the orders that pass the name, date-range and status filters that are set, in list order |
| AdminOrders.SelectNarrowed | frontend/src/pages/Admin/AdminOrders.js:42-60 | a filter pass that adds one condition to those already applied gives the one-pass selection under all of them |
| AdminOrders.HandleFilter | frontend/src/pages/Admin/AdminOrders.js:42-60 | with a search text and an order whose customer name is NULL the handler throws and the shown list is kept (None), and only then; otherwise the list narrowed by name, date and status in turn is exactly the orders passing all three |
| AdminOrders.NameStep | frontend/src/pages/Admin/AdminOrders.js:44-48 | the name pass on the whole list is the selection by name alone |
| AdminOrders.DateStep | frontend/src/pages/Admin/AdminOrders.js:49-55 | the date pass after the name pass is the selection by name and date |
| AdminOrders.StatusStep | frontend/src/pages/Admin/AdminOrders.js:56-58 | the status pass after the other two is the selection by all three filters |
| AdminOrders.SelectAll | frontend/src/pages/Admin/AdminOrders.js:43 | with every input cleared the list is unchanged |
| AdminOrders.MidnightOrderExcluded | frontend/src/pages/Admin/AdminOrders.js:53 | an order placed exactly at the start of the first picked day is not shown, since `isAfter` is strict |
| AdminOrders.Reset | frontend/src/pages/Admin/AdminOrders.js:62-67 | inputs cleared and the whole list shown, which equals filtering with cleared inputs; loaded orders and selection unchanged |
| AdminOrders.DeleteRequest | frontend/src/pages/Admin/AdminOrders.js:69-75 | only a warning exactly when nothing is ticked; otherwise exactly the ticked ids are sent |
| AdminOrders.WithoutIds | frontend/src/pages/Admin/AdminOrders.js:79 | exactly the orders whose id was not ticked, in list order |
| AdminOrders.AfterDelete | frontend/src/pages/Admin/AdminOrders.js:76-86 | on success the ticked orders leave the list, the shown list is the whole remaining list with the filters not applied again, and the selection is cleared; on failure nothing changes |
| AdminOrders.Ids | frontend/src/pages/Admin/AdminOrders.js:79 | the set of the listed orders' ids |
| AdminOrders.DeleteKeepsPageInStep | frontend/src/pages/Admin/AdminOrders.js:69-82 | a page listing exactly the stored orders lists, after a successful delete, the stored ids minus the ticked ones |
| AdminOrders.WithStatus | frontend/src/pages/Admin/AdminOrders.js:174-176 | the order with that id takes the new status; every other order and the list length are unchanged |
| AdminOrders.AfterStatusChange | frontend/src/pages/Admin/AdminOrders.js:169-180 | on success the order takes the new status and the whole list is shown; on failure nothing changes |
| AdminOrders.StatusChangeDropsFilter | frontend/src/pages/Admin/AdminOrders.js:177-178 | after a status change an order that the still-set filters hide is shown again |
| AdminOrders.StatusColor | frontend/src/pages/Admin/AdminOrders.js:141-148 | green exactly for Completed, red exactly for Cancelled, amber exactly for Preparing, grey exactly for any other status |
| CartMobile.SubTotal | frontend/src/pages/Mobile/CartMobile.js:10-11 | the sum of the lines' totals, never negative when no line total is |
| CartMobile.RemoveItem | frontend/src/pages/Mobile/CartMobile.js:49-54 | exactly the lines that are not of the removed item with the removed remarks, never more lines than before |
| CartMobile.RemoveItemAppend | frontend/src/pages/Mobile/CartMobile.js:50 | removing keeps the order of the remaining lines: it distributes over concatenation |
| CartMobile.RemoveItemInCart | frontend/src/pages/Mobile/CartMobile.js:49-54 | after removal nothing of that item-and-remarks variant is in the cart, and every other variant keeps its quantity in the cart |
| CartMobile.RemoveOtherVariant | frontend/src/pages/Mobile/CartMobile.js:50 | removing one variant leaves any other variant's quantity in the cart unchanged |
| CartMobile.DiscountMap | frontend/src/pages/Mobile/CartMobile.js:39-44 | the codes present are exactly those of rows with both a code and an id, each mapped to a non-zero id |
| CartMobile.DiscountMapLastWins | frontend/src/pages/Mobile/CartMobile.js:39-44 | a code maps to the id of the last usable row with that code |
| CartMobile.ApplyRefused | frontend/src/pages/Mobile/CartMobile.js:57 | the apply request is not sent for an empty code or one the code map does not hold as a truthy id; on a map without zero ids, such as the page's, that is exactly an empty or unknown code |
| CartMobile.DiscountAfterApply | frontend/src/pages/Mobile/CartMobile.js:56-73 | a refused code (ApplyRefused) changes nothing; a failed request resets the discount to 0; an answer sets it to `parseFloat(discountAmount)`, or 0 when that is NaN |
| CartMobile.ApplyEnabled | frontend/src/pages/Mobile/CartMobile.js:227 | the Apply button is enabled exactly when the code is not refused and the shown discount is not positive |
| CartMobile.PressApply | frontend/src/pages/Mobile/CartMobile.js:222-228 | the Apply button sends the request exactly when the code is known and no discount is shown yet (`discountAmount > 0` disables it); a disabled press keeps the discount; an enabled one has the handler's outcomes |
| CartMobile.ApplyOnce | frontend/src/pages/Mobile/CartMobile.js:222-228 | once a positive discount is shown, no later press sends another apply request, whatever code is typed, so the page spends at most one use of a discount per order |
| CartMobile.DisplayedTotal | frontend/src/pages/Mobile/CartMobile.js:213 | never negative, at least the subtotal minus the discount, and either 0 or that difference |
| CartMobile.Payload | frontend/src/pages/Mobile/CartMobile.js:95-100 | one sale line per cart line, in cart order, with its item, quantity, total and remarks |
| CartMobile.PayloadSubTotal | frontend/src/pages/Mobile/CartMobile.js:95-100 | the backend's subtotal of the sent lines is the subtotal the cart shows |
| CartMobile.DisplayedTotalIsStored | frontend/src/pages/Mobile/CartMobile.js:213 | for any discount the page holds, the final total it shows is the total the order endpoint stores for that order |
| CartMobile.ConfirmOrder | frontend/src/pages/Mobile/CartMobile.js:75-103 | no logged-in customer is refused with "Please log in to place an order", and only then; a preorder without pickup time is refused with "Please select pickup time", and only then; a sent request carries the stored customer id, the cart's lines, the code, the discount and the order type, with a pickup time exactly for a preorder |
| CartMobile.SentOrderAccepted | frontend/src/pages/Mobile/CartMobile.js:91-103 | a request the page sends passes the order endpoint's guards exactly when the stored customer id is a number and the cart is not empty |
| CartMobile.CartAfterOrder | frontend/src/pages/Mobile/CartMobile.js:105-111 | the cart is emptied once the order is placed and kept as it was when the request fails |
| CartMobile.ConfirmAgain | frontend/src/pages/Mobile/CartMobile.js:75-111 | confirming again after a placed order sends an empty cart that the order endpoint refuses, so a cart is never ordered twice; after a failed request the same request is sent again |
| CustomerRegisterMobile.CleanPhone | frontend/src/pages/Mobile/CustomerRegisterMobile.js:118-121 | only digits and dashes remain, every digit or dash of the input occurs in the result, an input of only digits and dashes comes back whole, and the result is never longer than the input |
| CustomerRegisterMobile.CleanPhoneAppend | frontend/src/pages/Mobile/CustomerRegisterMobile.js:118-121 | cleaning distributes over concatenation, so each digit and dash is kept once, in the order typed |
| CustomerRegisterMobile.CleanPhoneIdempotent | frontend/src/pages/Mobile/CustomerRegisterMobile.js:119 | cleaning already cleaned text changes nothing |
| CustomerRegisterMobile.CleanedPhoneFormat | frontend/src/pages/Mobile/CustomerRegisterMobile.js:116-121 | with at most 12 characters typed, the cleaned phone passes the register endpoint's format check exactly when at least 7 characters are left |
| CustomerRegisterMobile.RegisterCheck | frontend/src/pages/Mobile/CustomerRegisterMobile.js:28-43 | the request is sent exactly when all four fields are filled, the email matches the pattern and the password has at least 8 characters; each refusal's message is the one for the first failing check, in that order |
| CustomerRegisterMobile.SentPasswordNotTooShort | frontend/src/pages/Mobile/CustomerRegisterMobile.js:20-43 | a password that is sent is never rated "Too short" |
| CustomerRegisterMobile.RegisterBarWidth | frontend/src/pages/Mobile/CustomerRegisterMobile.js:154 | the bar is the profile page's bar for every password, and empty for an empty one |
| CustomerRegisterMobile.AfterRegister | frontend/src/pages/Mobile/CustomerRegisterMobile.js:52-62 | the page goes back with "Registration Successful" exactly on success; a refusal shows the endpoint's message, or "Registration Failed" when it is empty; no answer shows "Something went wrong, please try again" |
| CustomerRegisterMobile.ShortPhoneReachesBackend | frontend/src/pages/Mobile/CustomerRegisterMobile.js:28-43 | a cleaned phone of 1 to 6 characters passes the page's checks and is then refused by the endpoint's format check |
| ProfileMobile.PasswordStrength | frontend/src/pages/Mobile/ProfileMobile.js:28-35 | the level is the first failing check (too short, no upper-case letter, no digit, no other character), each in both directions; a password passing all is Strong exactly from 10 characters on and Good below |
| ProfileMobile.StrengthMonotone | frontend/src/pages/Mobile/ProfileMobile.js:28-35 | typing more characters at the end never lowers the level |
| ProfileMobile.BarWidth | frontend/src/pages/Mobile/ProfileMobile.js:277 | at most 100, full exactly from 10 characters on, 10 per character below that |
| ProfileMobile.BarMatchesStrength | frontend/src/pages/Mobile/ProfileMobile.js:277-285 | a Strong password fills the bar, a Good one fills 80 or 90 percent, a too-short one less than 80 |
| ProfileMobile.FormattedPhoneEscapesUniqueness | frontend/src/pages/Mobile/ProfileMobile.js:61-65 | the profile's phone formatter sends a 4- to 11-digit number with a dash after the third digit, so while stored phones are plain digits the update endpoint's "held by another customer" check does not see the clash |
| ProfileMobile.EmailMessage | frontend/src/pages/Mobile/ProfileMobile.js:75-77 | no message exactly when the email matches the pattern; otherwise "Email is required." for an empty one and "Invalid email address." for any other |
| ProfileMobile.PhoneMessage | frontend/src/pages/Mobile/ProfileMobile.js:79-81 | no message exactly when the digits are "01" and 8 to 10 more; otherwise "Phone number is required." for no digits and the format hint for any other |
| ProfileMobile.ProfileValid | frontend/src/pages/Mobile/ProfileMobile.js:67-88 | what `validate` accepts: a trimmed email of at least 5 characters and a phone of 10 to 12 digits follow from acceptance |
| ProfileMobile.Validate | frontend/src/pages/Mobile/ProfileMobile.js:67-88 | succeeds exactly when the error map is empty, which is exactly when the trimmed name is not empty, the trimmed email is valid, the phone digits are a valid mobile number and a new password is empty or at least 8 long; each field has an error exactly when its check fails, with that check's message |
| ProfileMobile.CollectErrors | frontend/src/pages/Mobile/ProfileMobile.js:68-87 | a field has an entry exactly when its check failed, holding that check's message, and the map is empty exactly when no check failed |
| ProfileMobile.ValidatedUpdatePassesFieldChecks | frontend/src/pages/Mobile/ProfileMobile.js:90-100 | a form that passes `validate`, sent trimmed by a logged-in customer, passes the update endpoint's required-field and email checks |
| ProfileMobile.CancelEdit | frontend/src/pages/Mobile/ProfileMobile.js:115-120 | the loaded profile comes back when there is one (the form is kept otherwise), the new password and the errors are cleared and edit mode ends |
| ProfileMobile.CancelDiscardsEdits | frontend/src/pages/Mobile/ProfileMobile.js:115-120 | whatever was typed, cancelling gives the page that cancelling straight away gives |
| DiscountRewardsMobile.OnLoad | frontend/src/pages/Mobile/DiscountRewardsMobile.js:17-22 | the page goes back to the start page exactly when no customer id is stored, and otherwise fetches for that id |
| DiscountRewardsMobile.RemainingMap | frontend/src/pages/Mobile/DiscountRewardsMobile.js:30-34 | exactly the ids of the received rows are keys |
| DiscountRewardsMobile.RemainingMapLastWins | frontend/src/pages/Mobile/DiscountRewardsMobile.js:31-33 | an id keeps the remaining uses of its last row |
| DiscountRewardsMobile.FindCard | frontend/src/pages/Mobile/DiscountRewardsMobile.js:65 | none exactly when no card has the id; otherwise the first card with that id |
| DiscountRewardsMobile.PointsAfter | frontend/src/pages/Mobile/DiscountRewardsMobile.js:65 | `prev - required \|\| 0` groups as `(prev - required) \|\| 0`: the points drop by the card's requirement when the card is listed, and become 0 when it is not |
| DiscountRewardsMobile.AfterRedeem | frontend/src/pages/Mobile/DiscountRewardsMobile.js:49-70 | a failed request or a refusal changes nothing and shows the endpoint's error or "Failed to redeem discount"; a success shows the code, raises that discount's counter by one from its count or 0 and debits the points as `PointsAfter` does, cards unchanged |
| DiscountRewardsMobile.RedeemKeepsPageInStep | frontend/src/pages/Mobile/DiscountRewardsMobile.js:60-65 | when the page's counter and points agree with the store, a successful redeem keeps them in agreement with the store's upsert and debit |
| DiscountRewardsMobile.RedeemEnabled | frontend/src/pages/Mobile/DiscountRewardsMobile.js:104 | the Redeem button of a card is enabled exactly when the shown points reach the card's requirement |
| DiscountRewardsMobile.EnabledMeansEnoughPoints | frontend/src/pages/Mobile/DiscountRewardsMobile.js:104 | pressing an enabled Redeem button while the shown points are the stored ones is answered by the redeem endpoint (`RedeemedFrom`) with success, never "Not enough points", and the balance left is the shown points minus the requirement, at least 0 |
| DiscountRewardsMobile.MissingCardZeroesPoints | frontend/src/pages/Mobile/DiscountRewardsMobile.js:65 | a successful redeem of a discount the page does not list shows 0 points |
| InvoiceMobile.OnAnswer | frontend/src/pages/Mobile/InvoiceMobile.js:17-32 | a toast appears exactly when no proper invoice arrived; then the page holds no items and a discount of 0, with "Invoice format error" for an answer without an item array and "Error fetching invoice" for a failed request; a proper answer is shown with its items and discount |
| InvoiceMobile.Subtotal | frontend/src/pages/Mobile/InvoiceMobile.js:56 | 0 for no items, and never negative when no row total is |
| InvoiceMobile.TotalPayable | frontend/src/pages/Mobile/InvoiceMobile.js:57-58 | the subtotal minus the discount, not clamped: never negative when the discount is at most the subtotal |
| InvoiceMobile.ShowsDiscount | frontend/src/pages/Mobile/InvoiceMobile.js:150 | the discount row appears exactly when the total payable is below the subtotal |
| InvoiceMobile.BadAnswerShowsZero | frontend/src/pages/Mobile/InvoiceMobile.js:20-31 | after a bad answer the subtotal and the total payable are 0 and no discount row appears |
| InvoiceMobile.TotalPayableIsStored | frontend/src/pages/Mobile/InvoiceMobile.js:56-58 | for an order placed through the order endpoint whose rows still add up to its subtotal, the total payable is the total the order stored, and the discount row appears exactly when a positive discount was granted |
| InvoiceMobile.DeletedItemCanMakeTotalNegative | frontend/src/pages/Mobile/InvoiceMobile.js:56-58 | when the granted discount exceeds the rows that still join (an item was deleted since), the total payable is negative although the stored total is not |
| HistoryDetailsMobile.FromInvoice | frontend/src/pages/Mobile/HistoryDetailsMobile.js:15-29 | the page holds the invoice's item array and discount |
| HistoryDetailsMobile.Amount | frontend/src/pages/Mobile/HistoryDetailsMobile.js:30-32 | 0 when `items` is not an array, otherwise the invoice page's subtotal of the same rows |
| HistoryDetailsMobile.Voucher | frontend/src/pages/Mobile/HistoryDetailsMobile.js:148 | `discount_applied ? parseFloat(discount_applied) : 0` is the stored discount itself |
| HistoryDetailsMobile.GrandTotalAsWritten | frontend/src/pages/Mobile/HistoryDetailsMobile.js:153-156 | the grand total as shown is the amount again, with the voucher not taken off |
| HistoryDetailsMobile.GrandTotalIgnoresVoucher | frontend/src/pages/Mobile/HistoryDetailsMobile.js:141-156 | an order of 20.00 with a 5.00 voucher shows a grand total of 20.00, while its stored total and the invoice page's total payable are 15.00 |
| HistoryDetailsMobile.GrandTotal | frontend/src/pages/Mobile/HistoryDetailsMobile.js:141-156 | the corrected grand total: grand total plus voucher is the amount |
| HistoryDetailsMobile.GrandTotalIsStored | frontend/src/pages/Mobile/HistoryDetailsMobile.js:141-156 | for an order placed through the order endpoint whose rows add up to its subtotal, the corrected grand total is the stored total and the invoice page's total payable |
| HistoryDetailsMobile.OrderTypeLabel | frontend/src/pages/Mobile/HistoryDetailsMobile.js:73 | "Takeaway / Preorder" exactly for a preorder, "Dine In" exactly for anything else |
| HistoryDetailsMobile.ShowsPickup | frontend/src/pages/Mobile/HistoryDetailsMobile.js:76 | the pickup row appears only for a preorder with a pickup time, so only under the "Takeaway / Preorder" label |
| HistoryDetailsMobile.PickupRowFollowsOrderType | frontend/src/pages/Mobile/HistoryDetailsMobile.js:73-76 | for an order stored with a pickup time whenever it is a preorder, the pickup row appears exactly for a preorder, that is exactly when the label says "Takeaway / Preorder" |
| MenuItemsMobile.Listed | frontend/src/pages/Mobile/MenuItemsMobile.js:27-29 | exactly the items flagged available with stock above 0, in order |
| MenuItemsMobile.ListedAppend | frontend/src/pages/Mobile/MenuItemsMobile.js:27-29 | the availability filter distributes over concatenation, so listed items keep the menu's order |
| MenuItemsMobile.VariantKey | frontend/src/pages/Mobile/MenuItemsMobile.js:22 | the id's digits, '_' right after them, then the remarks |
| MenuItemsMobile.VariantKeyInjective | frontend/src/pages/Mobile/MenuItemsMobile.js:22 | two variants with the same key are the same item with the same remarks |
| MenuItemsMobile.InCartQty | frontend/src/pages/Mobile/MenuItemsMobile.js:40-45 | 0 when no cart line is of the variant, and never negative when no line quantity is |
| MenuItemsMobile.Find | frontend/src/pages/Mobile/MenuItemsMobile.js:48 | none exactly when no listed item has the id; otherwise a listed item with that id |
| MenuItemsMobile.RemainingStock | frontend/src/pages/Mobile/MenuItemsMobile.js:47-55 | never negative; 0 for an item not on the page; otherwise the stock minus what is in the cart and selected for the variant, floored at 0 |
| MenuItemsMobile.Increment | frontend/src/pages/Mobile/MenuItemsMobile.js:59-69 | refused with the counters unchanged when nothing remains; otherwise the variant's count rises by one from its count or 0 |
| MenuItemsMobile.IncrementWithinStock | frontend/src/pages/Mobile/MenuItemsMobile.js:59-69 | an accepted '+' ends with in-cart plus selected within the stock, and '+' never breaks that bound once it holds |
| MenuItemsMobile.UnknownItemNotSelectable | frontend/src/pages/Mobile/MenuItemsMobile.js:49 | '+' on an item not on the page changes nothing |
| MenuItemsMobile.Decrement | frontend/src/pages/Mobile/MenuItemsMobile.js:71-74 | the variant's count falls by one when positive and is 0 otherwise, never negative; every other count is unchanged |
| MenuItemsMobile.Merged | frontend/src/pages/Mobile/MenuItemsMobile.js:246-259 | the cart keeps its length when a line of the variant exists and grows by exactly one otherwise |
| MenuItemsMobile.MergedInCart | frontend/src/pages/Mobile/MenuItemsMobile.js:246-259 | merging adds exactly the line's quantity to its own variant and nothing to any other |
| MenuItemsMobile.MergedNoDuplicates | frontend/src/pages/Mobile/MenuItemsMobile.js:246-259 | a cart without two lines of one variant keeps that property, and every line after merging is the new line or of a variant already in the cart |
| MenuItemsMobile.MergedAt | frontend/src/pages/Mobile/MenuItemsMobile.js:248-258 | where `findIndex` stops the line absorbs the new quantity and total in place; when it finds nothing the new line is appended |
| MenuItemsMobile.NewLine | frontend/src/pages/Mobile/MenuItemsMobile.js:239-244 | the line carries the item, the remarks, the count and `total_price = price * quantity` |
| MenuItemsMobile.AddToCart | frontend/src/pages/Mobile/MenuItemsMobile.js:234-265 | nothing changes for a count of 0; otherwise the selection is merged into the cart at `price * quantity` and the variant's counter goes back to 0 |
| MenuItemsMobile.AddToCartKeepsReservation | frontend/src/pages/Mobile/MenuItemsMobile.js:234-265 | adding moves the selection into the cart: in-cart plus selected for the variant is the same before and after, so the stock bound survives |
| AdminFeedback.Select | frontend/src/pages/Admin/AdminFeedback.js:57-78 | exactly the rows passing the rating, date-range and keyword filters that are set, in list order: a missing or zero rating never passes a minimum, a cleared rating select passes nothing, both day bounds are strict, and a keyword is matched lower-cased but untrimmed |
| AdminFeedback.SelectNarrowed | frontend/src/pages/Admin/AdminFeedback.js:57-78 | a pass that adds one filter to those already applied gives the one-pass selection under all of them |
| AdminFeedback.SelectAll | frontend/src/pages/Admin/AdminFeedback.js:58 | with every input cleared nothing is filtered out |
| AdminFeedback.RatingStep | frontend/src/pages/Admin/AdminFeedback.js:60-62 | the rating pass on the whole list is the selection by rating alone |
| AdminFeedback.DateStep | frontend/src/pages/Admin/AdminFeedback.js:64-70 | the date pass after the rating pass is the selection by rating and date |
| AdminFeedback.KeywordStep | frontend/src/pages/Admin/AdminFeedback.js:72-75 | the keyword pass after the other two is the selection by all three filters |
| AdminFeedback.ApplyFilters | frontend/src/pages/Admin/AdminFeedback.js:57-78 | the list narrowed by rating (unless the select is `null`), then date, then keyword (skipped for a blank keyword) is the one-pass selection, and holds exactly the loaded rows passing every set filter |
| AdminFeedback.BlankKeyword | frontend/src/pages/Admin/AdminFeedback.js:72 | a keyword of only white space selects what no keyword selects |
| AdminFeedback.SelectSame | frontend/src/pages/Admin/AdminFeedback.js:57-78 | filters that let the same rows through select the same list |
| AdminFeedback.TrailingSpaceMisses | frontend/src/pages/Admin/AdminFeedback.js:72-74 | the keyword "good " does not find the feedback "good": the keyword is not trimmed before matching |
| AdminFeedback.NoLongerInclude | frontend/src/pages/Admin/AdminFeedback.js:74 | a longer text never occurs in a shorter one |
| AdminFeedback.Reset | frontend/src/pages/Admin/AdminFeedback.js:80-85 | inputs cleared and the whole list shown, which is what applying the cleared inputs shows |
| AdminFeedback.ClearedPickShowsNothing | frontend/src/pages/Admin/AdminFeedback.js:58-85 | after the rating select's clear button (which stores `undefined`, not `null`) applying the filters shows no feedback, whatever the other inputs, until a reset shows the whole list again |
| AdminFeedback.RatingKey | frontend/src/pages/Admin/AdminFeedback.js:108-112 | the rating column sorts a missing rating as -1 and any other by its value |
| AdminFeedback.UnratedSortFirst | frontend/src/pages/Admin/AdminFeedback.js:108-112 | ascending by rating, an unrated row comes before every row rated above -1 |
| AdminFeedback.Submitter | frontend/src/pages/Admin/AdminFeedback.js:44 | the customer's name when present and not empty, "Guest" otherwise |
| AdminFeedback.Export | frontend/src/pages/Admin/AdminFeedback.js:37-49 | only a warning exactly when nothing is shown; otherwise one line per shown row, in order, with its submitter, phone, text and time, and a rating exactly when it is present and not 0 |
| AdminFeedback.GuestExportedAsGuest | frontend/src/pages/Admin/AdminFeedback.js:44 | a feedback without a customer is exported under "Guest" |

## Left out

- HTTP wiring is not modelled: Express routing, CORS and static serving. A handler's answer is the `Js.Response` it returns.
- The connection pool and connection release are not modelled. A failed SQL statement, which the handlers answer with 500, is not modelled either: every statement succeeds, except an insert whose values the columns refuse (MenuBackend.AddMenuItem, FeedbackController.RatingOf).
- Concurrent requests are not modelled. Each handler runs as one step, so the oversell race between two orders and the snapshot-then-set stock race of the admin menu are not captured.
- `placeOrder` runs without a transaction. It is modelled as the same sequence of statements, all of which succeed, so a crash half-way through is not represented.
- Login for admins and customers is not modelled. It is a plaintext lookup that decides no stored state.
- `forgotPassword` is not modelled: it draws a password with `Math.random` and sends email.
- File uploads are not modelled. They go through multer and the file system.
- The SQL reporting queries are not modelled: sales summary, trend, hourly and category sales, top items, item history, daily sales, revenue, the CRM statistics, active customers and the menu list join. They are GROUP BY and date functions that MySQL evaluates.
- The `GROUP_CONCAT` and ORDER BY of the admin order list are not modelled; only the per-row defaults are.
- Rows that tie under an ORDER BY may come back in any order. The model fixes one order, and its lemmas state only that the result is sorted.
- Floating-point arithmetic and `toFixed(2)` are not modelled. Money is an exact `real`, so IEEE rounding of currency is not captured, and neither are the report forecasts or the dashboard's percentages.
- AdminCrm.ChangePercent: the percentage is stated before `toFixed(2)` rounds it.
- Dates: only the `pad` helper of `formatToMySQLDatetime` is modelled. The parts that read a `Date` and the pickup-time options depend on the clock and the time zone. A preorder time is stored as the text sent, and the date filters compare timestamps as ordered integers.
- Js.ParseFloat: reads an optionally signed decimal with an optional fraction. The model has no exponent, hexadecimal or `Infinity` forms, and `Js.ToNumber` has the same limits.
- Js.IdOf: an id sent as text that `Number` reads as NaN or with a fraction part, such as "1abc" or "1.5", is treated as naming no row. MySQL would instead cast the text's leading number ("1abc" as 1) and compare that against the integer column. Handlers that pass such an id to SQL without an `isNaN` guard therefore answer "not found" in the model where the source may find a row: the invoice, the profile, the customer delete, the admin update and delete, and the menu flag, update and delete.
- OrderBackend.PlaceOrder: the `!customerId || isNaN(customerId)` guard is modelled through the same reading of ids (`Js.BadId`). A fractional text id such as "1.5" passes `isNaN` in the source and reaches SQL, while the model answers 400 "Invalid customerId".
- OrderBackend.GetOrdersByCustomerId: the same guard, with the same 400 for a fractional text id such as "1.5".
- MenuBackend.AddMenuItem: the menu table's column types are not part of this model. The stored price and stock are read the way strict-mode MySQL reads numeric text, as the number it spells; blank or non-numeric text, and a stock with a fraction, are modelled as the insert failing with 500. A server in another SQL mode would store 0 or a rounded stock instead.
- SQL string comparison is modelled as exact equality. MySQL's default collation also ignores letter case, accents and trailing spaces, so the model misses some matches and clashes. These members are affected, each listed below.
- OrderBackend.ResolveDiscount: the code matches a discount only with exactly the same text, where MySQL would also match "save10" against "SAVE10".
- DiscountBackend.DiscountByCode: the same exact match of the code.
- CustomerRegister.Register: a name, email or phone counts as taken only when exactly equal, where MySQL would also refuse "A@x.com" against a stored "a@x.com".
- CustomerController.UpdateProfile: the email and phone clash checks are exact in the same way.
- CustomerController.UpdateCustomer: the phone clash check is exact in the same way.
- AdminController.RegisterAdmin: a username counts as taken only when exactly equal.
- FeedbackController.OwnerOf: the phone lookup is an exact match.
- Letter case is ASCII only, and string lengths are counted in characters rather than UTF-16 units.
- Js.ToLower: lowers only 'A' to 'Z'; JavaScript's `toLowerCase` maps every Unicode letter.
- FeedbackController.RatingOf: a rating that parses to NaN is modelled as an INSERT failure, that is a 500.
- The low-stock threshold setting is kept as the JavaScript value it was stored from, not as the text MySQL holds.
- Menu item ids on the frontend are `nat`.
- Sale-row quantities and totals are typed numbers throughout. So several JavaScript fallbacks are not modelled:
  - InvoiceMobile.Subtotal: a missing `total_price` counting as 0;
  - HistoryDetailsMobile.Amount: the same fallback;
  - MenuItemsMobile.InCartQty: the `Number(quantity) || 0` fallback.
- Names are strings, never NULL. So a customer name missing from a joined row is not modelled, nor is `toLowerCase` on a NULL name in the CRM filter.
- The axios wrappers in `backend/controller/discountController.js` and `backend/controller/orderController.js` are not part of this model. They only forward requests.
- These page parts are not modelled: the page shells, login pages, navigation, XLSX and PDF export formatting, `localStorage` persistence and the cart's countdown timer.
- MenuItemsMobile.AddToCart: the page mutates a cart element in place and then copies the array. The model works on a sequence value, so aliasing with the copy persisted to `localStorage` is not captured.
- The admin menu's re-filter after an edit is saved is not modelled (`handleEditSave`, frontend/src/pages/Admin/AdminMenu.js:113-160); only the payload it sends is.
- The `parseFloat(price) || 0` applied by the menu endpoint's `fetchMenuItems` is not modelled (backend/controller/menuController.js:9). Prices are numbers there.
- These page details are not modelled:
  - the menu page's disabled add button for beverages;
  - the rewards page's guard that waits for the points to load;
  - the amount text of the redeem toast;
  - the profile form clearing a field's error as it is edited;
  - the menu page's category tabs, which show only the items of the chosen category (frontend/src/pages/Mobile/MenuItemsMobile.js:80-82).
- A failed request on the order details page leaves it on its loading message. That is not a state of the model.
- HistoryDetailsMobile.Amount: an answer whose `items` is not an array is modelled as showing an amount of 0. The page instead throws while rendering, at `items.length` (frontend/src/pages/Mobile/HistoryDetailsMobile.js:96).

## Findings

| source | as written | input that shows it | evidently intended | confidence | as-written member | corrected member |
|---|---|---|---|---|---|---|
| frontend/src/pages/Admin/AdminCRM.js:25-29 | `formatPhone` keeps at most 11 digits. The validator (lines 431-438, `^01\d{8,10}$`) and the register endpoint both accept 12. | A stored phone "012345678901": the edit form shows "012-34567890", so saving the unchanged form sends "01234567890" | the form keeps every digit the validator accepts (12), so an unchanged save is a no-op | not executed | AdminCrm.TwelveDigitPhoneTruncated | AdminCrm.FormatPhoneKeepingTwelve, AdminCrm.UnchangedEditIsNoOp |
| frontend/src/pages/Mobile/HistoryDetailsMobile.js:141-156 | "Grand Total" shows the recomputed amount, with the voucher shown above it not subtracted | An order of 20.00 with a 5.00 voucher shows a grand total of 20.00, while the order stored 15.00 and the invoice page shows 15.00 payable | grand total = amount − voucher, the stored total | not executed | HistoryDetailsMobile.GrandTotalAsWritten, HistoryDetailsMobile.GrandTotalIgnoresVoucher | HistoryDetailsMobile.GrandTotal, HistoryDetailsMobile.GrandTotalIsStored |
