# Enutrac subscription-payment core, modelled in Dafny

Enutrac sells GPS-tracking subscriptions on top of a Traccar server and takes payment
through the Telebirr gateway. This project models the backend's payment core and the
small decision rules around it, and proves properties of the model:

- **Telebirr client** (`Telebirr`, `Uri`). It covers the flat map of a request that is
  signed, the sorted `key=decoded-value` signing string, the 32-character nonce, the
  merchant order id and return-URL sanitising, the token call, the two-stage decoding of
  the pre-order reply, the signed checkout URL and callback verification.
  `decodeURIComponent` and `URLSearchParams` encoding are written out over UTF-8
  (section 2.1 of RFC 3986, section 3 of RFC 3629).
- **Payment routes** (`PaymentRoutes`). `/pay` records a PENDING payment before calling
  the gateway. `/redirect` reports the outcome and the days left. `/callback` maps the
  trade status onto the payment and extends the payer's subscription. Both look the
  payment up by the `merch_order_id` the gateway echoes, which is the order id stripped
  of its underscores, so an order the route created is never found there (see
  "## Findings"); the model also holds a look-up by the sanitised id. Each route is a
  function on the store, and a method on `Store.Db` is proved to apply it.
- **Cron registry and sweepers** (`CronManager`, `ExpirePending`, `Store`). The
  name-to-task registry is a class with an insertion-ordered key list beside a `map`. It
  has loading, replacing, stopping, status, corrupted-entry cleanup and manual runs. The
  bulk updates behind the jobs are methods on the in-memory store: PENDING to FAILED,
  lapsed ACTIVE to EXPIRED, deletion of old FAILED and CANCELLED payments, reminder
  selection and the statistics upsert.
- **Notification list** (`Notifications`, `Header`). It is a class holding the capped,
  newest-first list and the unread counter the browser keeps beside it. `Header` holds
  the bell's relative times, badge and click handling.
- **Route and page rules**:
  - admin pagination, filters, settings and the report summary (`Admin`);
  - authentication and account routes (`AuthRoutes`, `AuthMiddleware`, `UserRoutes`);
  - the dashboard (`Dashboard`);
  - the order-history and admin pages (`OrdersSummary`, `AdminSettings`,
    `AdminReports`, `SupportedDevices`);
  - the device map (`DeviceMap`);
  - the route report (`ReportsRoute`);
  - the invoice template (`Invoice`).

Cryptography, randomness, clocks, `JSON.parse`, `Number(...)`, password hashing, JWT and
the HTTP transport are parameters: values or functions passed in, about which only what
the code relies on is assumed. Times are integer milliseconds, amounts are integers in
hundredths, strings are sequences of characters, and every handler is one sequential
step over the store.

Where the code departs from its evident intent, the model follows the code:

- the callback's signature check is commented out (`backend/src/routes/payment.ts:164-169`);
- the status write is not guarded by the current status, so terminal states are not
  absorbing and a repeated "Completed" callback extends the subscription again
  (`backend/src/routes/payment.ts:192-234`);
- the checkout query and the callback are signed over the plain `key=value` text,
  without the URL-decoding the pre-order signing string applies
  (`backend/src/services/payment.ts:332-333`, `backend/src/services/payment.ts:393-396`);
- old FAILED and CANCELLED payments are deleted by the maintenance job
  (`backend/src/cron/cronManager.ts:540-555`).

## Model

| member | source | states |
|---|---|---|
| CronManager.FindKey | backend/src/cron/cronManager.ts:82-83 | `settings.find` gives the first record with the key, and none exactly when no record has it |
| CronManager.JobConfigs | backend/src/cron/cronManager.ts:86-142 | the five job configurations come in the order paymentCleanup, subscriptionExpire, subscriptionReminder, maintenance, weeklyStats |
| CronManager.JobConfigsFlags | backend/src/cron/cronManager.ts:89-137 | a stored flag enables its job exactly when it is "true", an absent flag enables it, the expiry and reminder jobs share one flag, and with no settings every job is enabled |
| CronManager.JobNamesDistinct | backend/src/cron/cronManager.ts:89-137 | the five job names are distinct |
| CronManager.CutoffHoursReadings | backend/src/cron/cronManager.ts:92 | the scheduled job's `??` reading and the manual run's logical-or reading of the cutoff differ exactly on a stored empty text, where the manual run uses 24 hours and the scheduled job gets NaN; with nothing stored both use 24 |
| CronManager.UuidText | backend/src/cron/cronManager.ts:305 | a UUID written out is 36 characters |
| CronManager.UuidRecognised | backend/src/cron/cronManager.ts:305 | every UUID text is recognised as one, in upper or lower case alike |
| CronManager.JobNamesAreNotUuids | backend/src/cron/cronManager.ts:305-309 | no job name is UUID-shaped, so cleanup deletes a job's entry only when its task is invalid |
| CronManager.StoppableIdsSpec | backend/src/cron/cronManager.ts:220-232 | the tasks stopped are exactly the valid tasks of the entries visited |
| CronManager.StatusOf | backend/src/cron/cronManager.ts:253-274 | one status entry per registry key, in the Map's order, carrying that entry's schedule and description; `valid` holds exactly for a valid task and `running` exactly for a valid task flagged running |
| CronManager.LoadEffectSpec | backend/src/cron/cronManager.ts:145-194 | loading configurations with distinct names into an empty registry registers exactly the enabled ones with a valid schedule, in order, each under fresh handles, marked running with its own schedule and description |
| CronManager.LoadedExactly | backend/src/cron/cronManager.ts:147-171 | a configuration's name is registered exactly when it is enabled and its schedule is valid |
| CronManager.StartEffectWellFormed | backend/src/cron/cronManager.ts:147-191 | one turn of the loading loop keeps the registry well formed, with a replaced task counted as stopped |
| CronManager.CleanupResult | backend/src/cron/cronManager.ts:300-334 | after cleanup the registry keeps exactly the entries that are neither UUID-keyed nor invalid, unchanged, in the old order |
| CronManager.CorruptedListed | backend/src/cron/cronManager.ts:304-311 | the corrupted list holds exactly the UUID-keyed or invalid entries |
| CronManager.JobOf | backend/src/cron/cronManager.ts:345-414 | a name selects a job exactly when it is one of the five job names, and the job selected carries that name |
| CronManager.JobOfName | backend/src/cron/cronManager.ts:345-414 | every job is selected by its own name |
| CronManager.Execute | backend/src/cron/cronManager.ts:93-140 | the new payments, subscriptions and settings, the reminders and the success and message are exactly those of `JobTables`, `JobReminders` and `JobOutcome` on the old tables: the payment sweep marks PENDING payments older than the cutoff FAILED and reports how many, or fails on a NaN cutoff with nothing written; expiry marks lapsed ACTIVE subscriptions EXPIRED and reports how many; the reminder job picks the ACTIVE subscriptions ending within seven days; maintenance deletes FAILED and CANCELLED payments older than six months; the statistics job upserts SYSTEM_STATS |
| CronManager.JobFrame | backend/src/cron/cronManager.ts:93-140 | each job writes only its own table (payments for the sweep and maintenance, subscriptions for expiry, settings for the statistics, none for the reminders); only the payment sweep can fail, exactly without a cutoff, and then writes nothing; only the reminder job has reminders |
| CronManager.RunSelected | backend/src/cron/cronManager.ts:339-420 | an unknown job fails with "Unknown job: " and the name and writes nothing; a known job has the whole effect of its run on the old tables (new tables, reminders, success and message) with the cutoff read with a logical-or default, so the cleanup succeeds exactly when that cutoff parses and every other job succeeds |
| CronManager.StopEach | backend/src/cron/cronManager.ts:220-241 | the stopping loop stops exactly the valid tasks and counts them |
| CronManager.DeleteCorrupted | backend/src/cron/cronManager.ts:300-334 | the deleting loop leaves the kept entries in order, stops every corrupted entry's valid task, and counts every corrupted entry |
| CronManager.DeleteEach | backend/src/cron/cronManager.ts:314-326 | each listed key is deleted and counted, and its task is stopped when it is valid |
| CronManager.Registry.constructor | backend/src/cron/cronManager.ts:17-39 | the registry starts empty |
| CronManager.Registry.GetCronJobsStatus | backend/src/cron/cronManager.ts:253-274 | the status is `StatusOf` of the current registry, which it does not change |
| CronManager.Registry.StopAll | backend/src/cron/cronManager.ts:204-248 | every valid task is stopped and every entry deleted, valid or not; the count returned is the number of valid tasks |
| CronManager.Registry.StartJob | backend/src/cron/cronManager.ts:147-191 | a disabled job changes nothing; an enabled one first stops and removes its old entry, then is registered under a fresh handle exactly when its schedule is valid |
| CronManager.Registry.LoadAll | backend/src/cron/cronManager.ts:49-197 | everything is stopped first, then the five jobs are started from the settings; the registry is what `LoadEffect` gives and the count returned is the number of entries |
| CronManager.Registry.StartEach | backend/src/cron/cronManager.ts:145-194 | the starting loop over an empty registry ends with `LoadEffect` of the configurations and counts every entry it made |
| CronManager.Registry.CleanupCorruptedJobs | backend/src/cron/cronManager.ts:300-334 | the registry keeps exactly the uncorrupted entries in order, the corrupted entries' valid tasks are stopped, and the count returned is the number of corrupted entries |
| CronManager.Registry.Stamp | backend/src/cron/cronManager.ts:167-170 | the last run of the job registered under the key is set to now; nothing else changes |
| CronManager.Registry.RunManually | backend/src/cron/cronManager.ts:339-420 | an unknown name fails and changes nothing; a known name has the whole effect of its job's run on the old tables with the manual cutoff; a successful run stamps the job's entry when it is registered, and a failed one stamps nothing |
| CronManager.Registry.Tick | backend/src/cron/cronManager.ts:165-175 | a scheduled run stamps its entry first, then the tables and reminders are those of the job's run on the old tables with the cutoff read at load time with `??`, so a NaN cutoff leaves every table unchanged |
| PaymentRoutes.Last6 | backend/src/routes/payment.ts:52 | `slice(-6)` is the last six characters of the user id, or all of a shorter one |
| PaymentRoutes.OrderIdShape | backend/src/routes/payment.ts:52 | an order id starts with "ORDER_", the decimal timestamp and "_", and ends with the user id's last six characters |
| PaymentRoutes.OrderIdInjective | backend/src/routes/payment.ts:52 | two order ids of one user are equal exactly when their timestamps are |
| PaymentRoutes.OrderIdHasUnderscore | backend/src/routes/payment.ts:52 | every order id the route creates holds an underscore, which the `merch_order_id` sent to the gateway (with everything but letters and digits stripped) never does |
| PaymentRoutes.PayCheck | backend/src/routes/payment.ts:31-46 | a plan is charged for only when a plan id was given |
| PaymentRoutes.PayRejections | backend/src/routes/payment.ts:31-46 | a missing plan id is 400 "Plan ID is required", an unknown plan 404 and a free plan 400, and a refusal records no payment and uses no id |
| PaymentRoutes.PayRecordsPending | backend/src/routes/payment.ts:51-90 | once the checks pass exactly one payment is appended, PENDING, for the plan's price and plan, under the fresh order id and the caller's id; a failed gateway call leaves it without a prepay id, a successful one stores the prepay id the reply returns |
| PaymentRoutes.AfterGatewayKeepsOrderIds | backend/src/routes/payment.ts:77-83 | the prepay-id write adds no record and changes no order id |
| PaymentRoutes.PayKeepsUniqueOrderIds | backend/src/routes/payment.ts:51-63 | `/pay` keeps payment order ids unique: an order id already stored makes the create fail |
| PaymentRoutes.Pay | backend/src/routes/payment.ts:26-95 | the store's payments, next id and the reply are those `PayEffect` gives with the Telebirr gateway, and the store stays well formed |
| PaymentRoutes.PayEffectPasses | backend/src/routes/payment.ts:51-83 | once the checks pass, `/pay` is the PENDING create followed by the gateway call on that record's request |
| PaymentRoutes.RecordGatewayOutcome | backend/src/routes/payment.ts:77-90 | the prepay-id write onto the record just created is the one `AfterGateway` gives, and the store stays well formed |
| PaymentRoutes.DaysRemainingSpec | backend/src/routes/payment.ts:129-132 | the days remaining are positive exactly while the subscription runs, and then the least whole number of days covering the time left |
| PaymentRoutes.RedirectSpec | backend/src/routes/payment.ts:100-148 | missing parameters give 400 "Missing params", an unknown order 404 "Payment not found" and a payer without a subscription 404 "Subscription not found"; every other request is answered, `success` holding exactly for TRADE_SUCCESS, with the id, status, plan and days remaining of the payer's own subscription |
| PaymentRoutes.RedirectFindsPayer | backend/src/routes/payment.ts:107-146 | in a store with unique order ids and subscribers, a redirect naming a stored order reports exactly the subscription its payer holds, with its plan and days remaining |
| PaymentRoutes.CallbackRejectsWithoutWrite | backend/src/routes/payment.ts:172-186 | a missing order id gives 400 "Missing orderId" and an unknown one 404 "Payment not found", and neither writes anything |
| PaymentRoutes.CallbackStatus | backend/src/routes/payment.ts:188-195 | for a known order only that payment changes: it becomes COMPLETED exactly when the trade status is "Completed" and FAILED otherwise, and takes the transaction id when one is given |
| PaymentRoutes.CallbackIgnoresCurrentStatus | backend/src/routes/payment.ts:188-195 | the stored status is never read: the callback leaves the same store whatever the payment's status was, so a later failed callback turns COMPLETED into FAILED |
| PaymentRoutes.CallbackExtendsFromNow | backend/src/routes/payment.ts:198-239 | a completed callback for a payer with a subscription succeeds exactly when a plan has the paid amount as its price; it then makes that subscription ACTIVE on the plan until now plus the plan's days, counted from now and not from the old end date; no other subscription changes |
| PaymentRoutes.CallbackWritesBeforeSubscriptionCheck | backend/src/routes/payment.ts:188-210 | a completed callback whose payer has no subscription still writes the payment status, then answers 404 "No subscription found" |
| PaymentRoutes.CallbackRepeatExtendsAgain | backend/src/routes/payment.ts:192-234 | repeating a completed callback is not idempotent: the second one extends the subscription again, from its own instant |
| PaymentRoutes.CallbackKeepsValid | backend/src/routes/payment.ts:152-244 | a callback keeps payment order ids and subscribers unique |
| PaymentRoutes.CallbackWithSanitisedIdNotFound | backend/src/routes/payment.ts:158-186 | a callback carrying the `merch_order_id` the gateway was sent finds no payment the route created and answers 404, writing nothing |
| PaymentRoutes.RedirectWithSanitisedIdNotFound | backend/src/routes/payment.ts:102-114 | a redirect carrying the `merch_order_id` the gateway was sent finds no payment the route created and answers 404 "Payment not found" |
| PaymentRoutes.FindEchoed | backend/src/services/payment.ts:196 | the look-up by sanitised id finds a payment whose order id sanitises to the echoed id, and finds none exactly when no payment does |
| PaymentRoutes.EchoedIdFindsPayment | backend/src/services/payment.ts:196 | the sanitised id of a stored order always finds a payment, and with unique sanitised ids exactly that order |
| PaymentRoutes.EchoedIdNonEmpty | backend/src/services/payment.ts:196 | a non-empty sanitised id comes from a non-empty order id, since sanitising only drops characters |
| PaymentRoutes.CallbackEchoedSpec | backend/src/routes/payment.ts:172-195 | with unique ids, a callback echoing the sanitised id of a stored order acts as the handler does on that order's own id: only that payment changes, and it becomes COMPLETED exactly for a "Completed" trade status |
| PaymentRoutes.CallbackEchoedUnknown | backend/src/routes/payment.ts:172-186 | an echoed id that the sanitised look-up does not resolve, and that is no stored order id, gives 404 "Payment not found" and writes nothing |
| PaymentRoutes.RedirectEchoedFindsPayer | backend/src/routes/payment.ts:102-146 | with unique ids, a redirect echoing the sanitised id of a stored order reports exactly the subscription its payer holds |
| PaymentRoutes.Callback | backend/src/routes/payment.ts:152-244 | the store's payments, subscriptions and the reply are those `CallbackEffect` gives, and the store stays well formed |
| Telebirr.FlattenForSign | backend/src/services/payment.ts:85-106 | the loop that fills the flat map key by key ends with exactly the flat map `Flatten` defines |
| Telebirr.FlattenKeys | backend/src/services/payment.ts:85-106 | a key is in the flat map exactly when some field contributes it: a top-level field that is not excluded, not null and not an object `biz_content`, or an allowed, non-null entry of an object `biz_content` |
| Telebirr.FlattenExcludesFields | backend/src/services/payment.ts:72-106 | none of the six excluded fields (sign, sign_type, header, refund_info, openType, raw_request) is ever in the flat map, at the top level or inside `biz_content` |
| Telebirr.FlattenHoistsBizContent | backend/src/services/payment.ts:93-98 | every allowed, non-null entry of an object `biz_content` is hoisted to the top level of the flat map |
| Telebirr.FlattenDropsBizContent | backend/src/services/payment.ts:93-98 | an object `biz_content` is itself never put into the flat map |
| Telebirr.FlattenValues | backend/src/services/payment.ts:85-106 | every value of the flat map is the `toString` of a non-null field that contributes its key |
| Telebirr.FlattenIgnoresSignature | backend/src/services/payment.ts:240-255 | adding `sign` and `sign_type` to the request does not change its flat map, so the final request carries the signature of its own signed text |
| Telebirr.DecodedPairs | backend/src/services/payment.ts:243-247 | one `key=decodeURIComponent(value)` per key, in order, and no signing string at all (a thrown URIError) exactly when some value does not decode |
| Telebirr.SignStringShape | backend/src/services/payment.ts:243-247 | the pre-order signing string lists every key of the flat map once, in ascending order, each with its decoded value, joined with '&' |
| Telebirr.SignStringPlain | backend/src/services/payment.ts:243-247 | values without '%' are signed as they are |
| Telebirr.NonceAlphabetIsAlnum | backend/src/services/payment.ts:113 | the nonce alphabet holds exactly the 62 ASCII letters and digits |
| Telebirr.NonceOf | backend/src/services/payment.ts:112-121 | a nonce is 32 characters, each an ASCII letter or digit |
| Telebirr.NonceOfOnto | backend/src/services/payment.ts:112-121 | every 32-character alphanumeric text is a possible nonce |
| Telebirr.GenerateNonceStr | backend/src/services/payment.ts:112-121 | the loop that appends one drawn character per round returns the nonce `NonceOf` gives for those draws |
| Telebirr.MerchOrderId | backend/src/services/payment.ts:196 | the merchant order id holds only ASCII letters and digits |
| Telebirr.MerchOrderIdKeeps | backend/src/services/payment.ts:196 | it keeps exactly the letters and digits of the order id, in their order |
| Telebirr.MerchOrderIdIdempotent | backend/src/services/payment.ts:196 | an id that is already alphanumeric is sent unchanged, so sanitising twice is sanitising once |
| Telebirr.SanitizeReturnUrl | backend/src/services/payment.ts:198-203 | the redirect URL sent always matches the URL pattern; it is the return URL when that matches, and otherwise the fallback |
| Telebirr.FallbackMatches | backend/src/services/payment.ts:202 | the fallback URL matches the pattern itself |
| Telebirr.SanitizeReturnUrlIdempotent | backend/src/services/payment.ts:198-203 | validating the URL a second time changes nothing |
| Telebirr.ParseFormatAmount | backend/src/services/payment.ts:217 | `parseFloat` reads back the `toFixed(2)` text of every amount in hundredths, negative ones included, which is what lets the callback find a plan by the paid amount |
| Telebirr.NewService | backend/src/services/payment.ts:52-68 | the mode is TELEBIRR_MODE or "sandbox" when that is unset or empty, and the sandbox mode selects the sandbox gateway and checkout pair, any other mode the production pair |
| Telebirr.RelaxedTlsOnlyInSandbox | backend/src/services/payment.ts:6-12 | relaxed certificate checking is only used against the sandbox endpoints, an unset mode selects the sandbox with certificates checked, and production is selected exactly by a non-empty mode other than "sandbox" |
| Telebirr.RequestDataFlat | backend/src/services/payment.ts:211-240 | the signed pre-order holds the twelve business fields at the top level and no `biz_content` key |
| Telebirr.GetToken | backend/src/services/payment.ts:125-149 | a token is returned exactly for a 2xx reply whose body parses to JSON with a truthy `token`, and it is that token's text; every failure becomes the one "Failed to get token from Telebirr" error |
| Telebirr.GetTokenReply | backend/src/services/payment.ts:127-148 | a reply whose JSON object holds a string token yields exactly that token when the status is 2xx and the token is non-empty, and the token error otherwise; no reply and a failed request setup yield the token error |
| Telebirr.DecodePreOrder | backend/src/services/payment.ts:276-294 | a non-JSON reply is the non-JSON error carrying the body; the prepay id is returned exactly when the JSON has a truthy `biz_content.prepay_id`, and it is that value |
| Telebirr.PreOrderOutcome | backend/src/services/payment.ts:261-317 | the catch block re-wraps every error: a prepay id is returned exactly for a 2xx reply that decodes, and a non-JSON reply becomes an Axios error |
| Telebirr.PreOrderSpec | backend/src/services/payment.ts:192-317 | a failed token call fails the order; a prepay id comes only from the gateway's reply to the final request built from the signed data and a signature of its signing string |
| Telebirr.ConstructRawRequest | backend/src/services/payment.ts:320-341 | the checkout query fails exactly when signing the sorted `k=v` text of the checkout fields fails; otherwise it is the seven encoded `name=value` pairs joined by '&' (the five checkout fields, `sign` holding that signature, then `sign_type`), and splitting it on '&' gives those pairs back |
| Telebirr.CheckoutFieldsSorted | backend/src/services/payment.ts:324-333 | the checkout fields sort as appid, merch_code, nonce_str, prepay_id, timestamp |
| Telebirr.NoAmpersandInEncoded | backend/src/services/payment.ts:336 | form encoding never leaves an '&' in a name or value |
| Telebirr.NoAmpersandInPair | backend/src/services/payment.ts:336 | an encoded `name=value` pair holds no '&' |
| Telebirr.CheckoutQueryFields | backend/src/services/payment.ts:336-340 | the query splits on '&' into the seven encoded fields in order, the five checkout fields then `sign` and `sign_type`, and each value decodes back to itself (with spaces as '+') |
| Telebirr.CheckoutUrlPrefix | backend/src/services/payment.ts:353 | the checkout URL starts with the checkout base URL and '?' |
| Telebirr.CheckoutStageSpec | backend/src/services/payment.ts:347-365 | a checkout is returned exactly when the pre-order and the checkout signature both succeed; it carries the pre-order's prepay id, and its URL is the checkout endpoint, '?', then the seven encoded pairs (the checkout fields over that prepay id, the signature of their sorted `k=v` text, the sign type), `version=1.0` and `trade_type=Checkout`, joined by '&', so the text after '?' splits back into exactly those pairs; a failed pre-order fails with its own error |
| Telebirr.CheckoutUrlQuery | backend/src/services/payment.ts:353 | the checkout URL over a query of '&'-free pairs is the endpoint, '?' and those pairs followed by the version and trade type joined by '&', and the text after '?' splits back into them |
| Telebirr.VerifiedFields | backend/src/services/payment.ts:385 | the fields checked are the callback's fields without `sign` and `sign_type` |
| Telebirr.VerifyCallback | backend/src/services/payment.ts:383-410 | a callback is accepted exactly when `sign_type` is "SHA256WithRSA" and the RSA check of the sorted text of the other fields against `sign` succeeds; a check that throws rejects it |
| Telebirr.VerifiedFieldsKeys | backend/src/services/payment.ts:385-396 | the verified text names every callback field except `sign` and `sign_type` |
| Uri.Utf8Decodes | backend/src/services/payment.ts:246 | the UTF-8 encoding of a character above U+007F is a well-formed lead-and-continuation sequence that decodes back to that character |
| Uri.PercentDecodePlain | backend/src/services/payment.ts:246 | `decodeURIComponent` leaves text without '%' unchanged |
| Uri.BadEscapeFails | backend/src/services/payment.ts:246 | a '%' that does not start two hexadecimal digits makes `decodeURIComponent` throw |
| Uri.FormEncodeChars | backend/src/services/payment.ts:336-340 | `URLSearchParams` encoding writes only letters, digits, `*-._+` and '%', so never the '&' and '=' that separate the fields |
| Uri.FormEncodeSafeText | backend/src/services/payment.ts:336-340 | letters, digits and `*-._` are written as they are |
| Uri.DecodeEncodedChar | backend/src/services/payment.ts:336-340 | decoding the encoding of one character followed by any text gives that character (a space as '+') and then the decoding of the text |
| Uri.DecodeFormEncode | backend/src/services/payment.ts:336-340 | `decodeURIComponent` undoes the `URLSearchParams` encoding of any text, except that a space comes back as the '+' the encoder wrote for it |
| AuthRoutes.Cookie | backend/src/routes/auth.ts:123-136 | every cookie is httpOnly, secure exactly in production, SameSite strict exactly in production (lax otherwise), with the given lifetime |
| AuthRoutes.LoginRefreshCookie | backend/src/routes/auth.ts:201-207 | login's refresh cookie has a lifetime, of 30 days, exactly with "remember me", and is otherwise a session cookie |
| AuthRoutes.CookieLifetimes | backend/src/routes/auth.ts:127-135 | the access cookie lasts 15 minutes and registration's refresh cookie 30 days; without "remember me" login's refresh cookie has no lifetime |
| AuthRoutes.FindPlanByName | backend/src/routes/auth.ts:91-93 | `findFirst` on the plan name finds a stored plan with that name, or nothing exactly when no plan has it |
| AuthRoutes.RegistrationSpec | backend/src/routes/auth.ts:54-145 | registration succeeds exactly with all three fields and an address no user has; a refusal (400 or 409) writes nothing; a success adds one user with the hashed password and no reset token, and one subscription exactly when a plan named "Free" exists |
| AuthRoutes.LoginSpec | backend/src/routes/auth.ts:147-176 | a login succeeds exactly for a stored address with a matching password, and returns that user; every failed login with both fields gets one and the same 401 "Invalid email or password", so the reply does not tell whether the address is stored |
| AuthRoutes.Refresh | backend/src/routes/auth.ts:261-286 | 401 "No refresh token" exactly without a cookie, 403 "Invalid refresh token" exactly for a token that does not verify; a new access token is issued only for the user id the token names |
| AuthRoutes.Me | backend/src/routes/auth.ts:223-258 | `/me` returns the caller's stored record exactly when there is one, and 404 otherwise |
| AuthRoutes.ForgotSpec | backend/src/routes/auth.ts:311-400 | without an address 400 "Email is required" and nothing written; otherwise the same success reply whether or not the address is stored, and only its owner's record changes, to hold the token with an expiry one hour from now |
| AuthRoutes.FindResettable | backend/src/routes/auth.ts:418-425 | `findFirst` finds the first user holding the token unexpired, or nothing exactly when no user does |
| AuthRoutes.ResetSpec | backend/src/routes/auth.ts:405-450 | a reset succeeds exactly with a token and a password of at least six characters and a user holding the token before its expiry; every refusal is 400 and writes nothing; a success sets that user's password hash and clears the token and its expiry |
| AuthRoutes.ResetSingleUse | backend/src/routes/auth.ts:418-442 | a reset token is single-use: after a successful reset, a second one with the same token is refused, whatever the time |
| AuthRoutes.ForgotThenReset | backend/src/routes/auth.ts:333-442 | a token issued by forgot-password resets the password before the hour is up and is refused once the hour has passed |
| AuthRoutes.Register | backend/src/routes/auth.ts:54-145 | the store's users, subscriptions and reply are those `Registration` gives, and the store stays well formed |
| AuthRoutes.ForgotPassword | backend/src/routes/auth.ts:311-400 | the store's users and the reply are those `Forgot` gives, and the store stays well formed |
| AuthRoutes.ResetPassword | backend/src/routes/auth.ts:405-450 | the store's users and the reply are those `Reset` gives, and the store stays well formed |
| ExpirePending.ReadConfigDefaults | backend/src/cron/expirePendingPayments.ts:12-17 | with no stored settings the job is enabled, hourly, with a 24-hour cutoff; a stored `cronEnabled` enables it exactly when it is the text "true" |
| ExpirePending.ReadConfig | backend/src/cron/expirePendingPayments.ts:12-15 | the job is enabled exactly when the looked-up `cronEnabled` value, defaulting to "true", is "true" |
| ExpirePending.ReloadSpec | backend/src/cron/expirePendingPayments.ts:21-34 | a load stops the previous task in every case; a fresh task runs exactly when the job is enabled and the schedule is valid, and it captures the cutoff read at load time; otherwise the variable keeps the stopped task |
| ExpirePending.ReloadKeepsOneLive | backend/src/cron/expirePendingPayments.ts:21-34 | after any load at most one issued task is live and all the others are stopped |
| ExpirePending.Sweeper.LoadCronJob | backend/src/cron/expirePendingPayments.ts:7-49 | the module's task state after `loadCronJob` is the one `Reload` gives, and the single-live-task invariant is kept |
| ExpirePending.Sweeper.Tick | backend/src/cron/expirePendingPayments.ts:35-44 | a tick marks FAILED exactly the PENDING payments created before now minus the captured cutoff in hours, and reports how many; an unparsable cutoff gives an invalid date and changes nothing |
| Admin.JsCeilDiv | backend/src/routes/admin.ts:92 | `Math.ceil(total / limit)` is a number exactly for a non-zero limit, and for a positive limit it is the least page count covering the total |
| Admin.PaginateDefaults | backend/src/routes/admin.ts:58-93 | without parameters page 1 of 20 users is asked for, skipping none, with `ceil(total / 20)` pages |
| Admin.PageInRange | backend/src/routes/admin.ts:59-92 | with a positive limit, a page from 1 on starts inside the list exactly when it is one of the `pages` pages |
| Admin.IndexOnPage | backend/src/routes/admin.ts:59-92 | with a positive limit, the k-th user lies on page `k / limit + 1`, which is one of the `pages` pages |
| Admin.UsersPage | backend/src/routes/admin.ts:61-81 | a negative skip makes the store refuse the query; otherwise the page holds at most as many users as the magnitude of `take` |
| Admin.UsersPageSpec | backend/src/routes/admin.ts:61-81 | a page holds as many users as `take` asks for and the matching list still has after `skip`; with a non-negative take the i-th user is the (skip + i)-th matching user, with a negative take the page is the run of matching users that ends `skip` users before the end of the list |
| Admin.UsersPageMatches | backend/src/routes/admin.ts:61-81 | every listed user is a stored user and, with a non-empty search, has it in their name or e-mail address |
| Admin.WindowSpec | backend/src/routes/admin.ts:78-79 | Prisma's `skip` and `take` keep as many items as `take` asks for and the list has after `skip`, counted from the front for a non-negative take and from the back for a negative one |
| Admin.SubscriptionsWhere | backend/src/routes/admin.ts:103-116 | `expiring=true` forces status ACTIVE whatever status was given and bounds the end date seven days ahead; otherwise a non-empty status is used as given and there is no date bound |
| Admin.ExpiringOverridesStatus | backend/src/routes/admin.ts:103-122 | with `expiring=true` the list is exactly the ACTIVE subscriptions ending within seven days, even when another or an invalid status was given |
| Admin.Take | backend/src/routes/admin.ts:258 | `take: n` keeps a prefix of at most n items, and the whole list when it is no longer than n |
| Admin.PaymentsListed | backend/src/routes/admin.ts:242-260 | at most 100 payments are listed |
| Admin.PaymentsListedMatch | backend/src/routes/admin.ts:246-258 | every listed payment is a stored payment matching the non-empty user id and status filters |
| Admin.PaymentsListedComplete | backend/src/routes/admin.ts:242-260 | the store refuses exactly a non-empty status that names no payment status; otherwise the list is the first 100 payments, in table order, whose stored user id and status name equal the non-empty filters, so when at most 100 match every matching payment is listed |
| Admin.OrdersWhere | backend/src/routes/admin.ts:446-459 | a status filter is set exactly for a non-empty status other than "all", and it is the upper-cased status; the date range is set exactly when both dates are given |
| Admin.StatusNameCase | backend/src/routes/admin.ts:449-450 | a payment status name written in lower case upper-cases back to itself and is not "all" |
| Admin.OrdersAllStatuses | backend/src/routes/admin.ts:442-477 | "all" and an absent status select the same payments; "ALL" is upper-cased to a name no payment status has, so the query fails with 500 |
| Admin.OrdersStatusFilter | backend/src/routes/admin.ts:442-477 | a lower-case status name selects exactly the payments with that status inside the date range |
| Admin.SettingsObjectSpec | backend/src/routes/admin.ts:203-206 | the settings object has exactly the stored keys, each with the value of its last row |
| Admin.FirstNonString | backend/src/routes/admin.ts:224-230 | the position of the first entry whose value is not a string, every entry before it having one |
| Admin.UpsertObject | backend/src/routes/admin.ts:225-229 | one upsert keeps keys unique and, seen through the settings object, is one map update |
| Admin.UpsertAllObject | backend/src/routes/admin.ts:224-230 | the upserts in order keep keys unique and, seen through the settings object, are the map updates in order |
| Admin.ApplyAllLast | backend/src/routes/admin.ts:224-230 | after the updates a key holds the value of its last pair |
| Admin.ApplyAllOthers | backend/src/routes/admin.ts:224-230 | a key no pair names keeps what it had, present or absent |
| Admin.UpsertAllSpec | backend/src/routes/admin.ts:224-230 | each given key ends with the value of its last entry, every other stored key keeps its value, and keys stay unique |
| Admin.PutSettings | backend/src/routes/admin.ts:215-239 | a missing or non-object body is 400 "Settings object is required" and writes nothing; otherwise the entries are upserted in order, and the store refuses the first value that is not a string after the entries before it are written |
| Admin.TotalTimeSpan | backend/src/routes/admin.ts:392-409 | the summed time differences telescope to the span from the first fix to the last, and 0 for fewer than two positions |
| Admin.MovingWithinTotal | backend/src/routes/admin.ts:392-414 | with fixes in time order the moving time lies between 0 and the total time |
| Admin.MaxSpeedSpec | backend/src/routes/admin.ts:388-405 | the maximum speed is at least 0, bounds the speed of every position after the first, and is 0 or one of those speeds |
| Admin.MaxSpeedIgnoresFirst | backend/src/routes/admin.ts:393-405 | the first position's speed never counts |
| Admin.Summarize | backend/src/routes/admin.ts:387-424 | the loop computes the maximum speed, the total, moving and stopped minutes, each rounded separately, and the position count; fewer than two positions give all zeros |
| Admin.StoppedRounding | backend/src/routes/admin.ts:420-422 | the stopped minutes, rounded on their own, differ by at most one from the total minus the moving minutes |
| Admin.ReportPositions | backend/src/routes/admin.ts:428 | the report returns the first 500 positions, or all when there are fewer |
| UserRoutes.WithProfile | backend/src/routes/user.ts:57-62 | an update writes the name and the address only when they are supplied and non-empty, and leaves every other field of the record as it was |
| UserRoutes.ProfileUpdateSpec | backend/src/routes/user.ts:35-81 | the update succeeds exactly when a field is supplied, the address is not another user's and the caller exists; a refusal writes nothing; a success rewrites the caller's record alone and returns it; ids and addresses stay unique |
| UserRoutes.PasswordChangeSpec | backend/src/routes/user.ts:84-125 | the password changes exactly when both passwords are supplied, the new one has at least six characters, the caller exists and the current password matches the stored hash |
| UserRoutes.PasswordChangeEffect | backend/src/routes/user.ts:84-125 | a refusal (400, 401 or 404) writes nothing; a change rewrites only the caller's password hash, to the hash of the new password; ids stay unique |
| UserRoutes.AccountDeletionSpec | backend/src/routes/user.ts:182-212 | the caller's record, and only it, is removed exactly when the password is supplied and matches its hash; any refusal writes nothing; ids stay unique |
| UserRoutes.RemoveAt | backend/src/routes/user.ts:206-208 | removing the single record with an id removes exactly the records with that id and keeps ids and addresses unique |
| UserRoutes.PutProfile | backend/src/routes/user.ts:35-81 | the store's users and the reply are those `ProfileUpdate` gives, and the store stays well formed |
| UserRoutes.PutPassword | backend/src/routes/user.ts:84-125 | the store's users and the reply are those `PasswordChange` gives, and the store stays well formed |
| UserRoutes.DeleteAccount | backend/src/routes/user.ts:182-212 | the store's users and the reply are those `AccountDeletion` gives, and the store stays well formed |
| UserRoutes.UserStatsDefaults | backend/src/routes/user.ts:131-172 | a user with no subscription and no payments gets 0 payments, 0 successful, 0 spent, "No Plan" and "INACTIVE" |
| UserRoutes.UserStatsSnoc | backend/src/routes/user.ts:143-168 | one more payment record raises the payment count by one exactly when it is the user's, and the successful count and the total (by its amount) exactly when it is also COMPLETED |
| UserRoutes.FormatOrder | backend/src/routes/user.ts:259-277 | a row keeps the subscription's id, status and dates; the plan name is "Free Plan" for a missing or empty name and the price 0 only for a missing plan; the payment is absent exactly when there is none, and its method is "N/A" when missing or empty |
| UserRoutes.UserOrdersSpec | backend/src/routes/user.ts:227-279 | status "ALL" gets the same answer as no status; without filters the query succeeds and every one of the caller's subscriptions has a row |
| UserRoutes.UserOrdersStatus | backend/src/routes/user.ts:230-237 | a status filter keeps only rows of that status; a status that names no subscription status, or a day count that is not a number, makes the store query fail |
| UserRoutes.UserOrdersRow | backend/src/routes/user.ts:234-277 | each row of a successful query is formatted from one of the caller's subscriptions, created no earlier than the given number of days ago |
| UserRoutes.UserOrdersComplete | backend/src/routes/user.ts:234-277 | in a successful query every one of the caller's subscriptions of the status named (unless "ALL") and created no earlier than the given number of days ago has a row |
| UserRoutes.UserOrdersOnlyCaller | backend/src/routes/user.ts:234-277 | whatever the filters, every row comes from one of the caller's own subscriptions inside the day window |
| AuthMiddleware.SelectToken | backend/src/middleware/auth.ts:24 | a non-empty `token` cookie is the token; otherwise it is whatever the Authorization header gives |
| AuthMiddleware.BearerToken | backend/src/middleware/auth.ts:24 | a `<scheme> <token>` header whose two parts hold no space yields exactly the token |
| AuthMiddleware.NoSpaceNoToken | backend/src/middleware/auth.ts:24-26 | a header without a space yields no token |
| AuthMiddleware.AuthenticateSpec | backend/src/middleware/auth.ts:22-51 | 401 "Access token required" without a token; the request is let through exactly when the token verifies to an object payload with a `userId` naming a stored user, and then it carries that user; every rejection is 401 or 403 |
| AuthMiddleware.RequireAdmin | backend/src/middleware/auth.ts:54-60 | the request passes exactly when the attached user's role is "ADMIN"; otherwise it is 403 "Admin access required" |
| Dashboard.UsageSpec | backend/src/routes/dashboard.ts:24-34 | the usage counts exactly the devices the user owns; without a subscription or plan the limit and percentage are 0 and no device can be added; with a plan the limit is the plan's, and a device can be added exactly when the count is below it |
| Dashboard.NoSubscriptionNoPlan | backend/src/routes/dashboard.ts:14-20 | a user who has no subscription has no plan |
| Dashboard.UtilizationBounds | backend/src/routes/dashboard.ts:28-30 | under the limit the rounded percentage lies in 0..100, at or over it it is at least 100, and rounding shows 100 for 199 devices out of 200 while another can still be added |
| Dashboard.StatsOnlyForAdmin | backend/src/routes/dashboard.ts:11-62 | 401 exactly without a caller, 404 exactly for a caller who is no longer stored; the site-wide counts of users, devices and subscriptions appear exactly for an administrator |
| Invoice.StatusColour | backend/src/services/invoiceTemplete.ts:15-30 | a missing status is grey; otherwise the upper-cased status is green exactly for COMPLETED, SUCCESS and PAID, amber exactly for PENDING and PROCESSING, and red exactly for FAILED, CANCELLED and REFUNDED |
| Invoice.ColourIgnoresCase | backend/src/services/invoiceTemplete.ts:15-16 | two statuses that upper-case alike get the same colour |
| Invoice.PaymentStatusColours | backend/src/services/invoiceTemplete.ts:15-30 | each stored payment status has its own colour band: COMPLETED green, PENDING amber, FAILED and CANCELLED red |
| Invoice.InvoiceDefaults | backend/src/services/invoiceTemplete.ts:253-263 | an invoice with nothing filled in shows plan "Premium", 20 devices, "30 days", "N/A" for the customer and the description, the row text "Service Subscription", the label "UNKNOWN" in grey, and USD unless the deployment sets a currency |
| Invoice.InvoiceFieldsSpec | backend/src/services/invoiceTemplete.ts:253-563 | the deployment's currency wins over the invoice's, which wins over USD; the logo is shown exactly when a non-empty address is set; given values are shown as they are, and the status label is the upper-cased status |
| Invoice.LabelMatchesColour | backend/src/services/invoiceTemplete.ts:209-217 | a coloured (non-grey) badge always has a status, and its label is coloured the same as the badge |
| AdminReports.SearchSpec | frontend/src/pages/admin/AdminReports.tsx:82-91 | a device is kept exactly when its lower-cased name, unique id or owner address includes the lower-cased query; the kept devices keep their order, and the empty query keeps them all |
| AdminReports.NoEmailMatch | frontend/src/pages/admin/AdminReports.tsx:85-89 | for a device without an owner address only the name and unique id can match |
| AdminReports.EmailMatch | frontend/src/pages/admin/AdminReports.tsx:85-89 | searching by the owner's address finds the device, whatever the letter case |
| AdminReports.DeviceParams | frontend/src/pages/admin/AdminReports.tsx:66-69 | the device-list query leaves out the status exactly for "ALL" and the user exactly for "all", and otherwise sends them as chosen |
| AdminReports.UserOptions | frontend/src/pages/admin/AdminReports.tsx:55 | the user picker lists the "All Users" entry first, then the fetched users in order |
| AdminReports.FirstOptionAllUsers | frontend/src/pages/admin/AdminReports.tsx:55-69 | picking the picker's first entry sends no user filter |
| AdminSettings.Get | frontend/src/pages/admin/AdminSettings.tsx:85-104 | a key of the settings object yields its stored text, and a missing key yields nothing |
| AdminSettings.ReadDefaults | frontend/src/pages/admin/AdminSettings.tsx:84-105 | with nothing stored the forms show every flag off, the schedules "0 * * * *", "0 9 * * *", "0 9 * * *", "0 * * * *" and "0 0 * * 0", a 24-hour cutoff and five devices per user |
| AdminSettings.ReadCronSpec | frontend/src/pages/admin/AdminSettings.tsx:94-105 | a flag is on exactly when its stored text is "true"; a schedule is the stored text unless that is missing or empty, and then the listed fallback |
| AdminSettings.MissingFlagDisagrees | frontend/src/pages/admin/AdminSettings.tsx:95-103 | for a flag that was never stored, the page shows the job off while the scheduler, which defaults the flag to "true", runs it |
| AdminSettings.StoredFlagAgrees | frontend/src/pages/admin/AdminSettings.tsx:95-103 | a stored flag reads the same on the page and in the scheduler |
| AdminSettings.DisplayName | frontend/src/pages/admin/AdminSettings.tsx:203-212 | a name that is not one of the five jobs is shown as it is |
| AdminSettings.DisplayNamesDistinct | frontend/src/pages/admin/AdminSettings.tsx:203-212 | the five jobs get five distinct display names, none of which is itself a job name |
| AdminSettings.SendTestEmail | frontend/src/pages/admin/AdminSettings.tsx:180-187 | an empty address gives the error "Please enter an email address" and no request; any other address is sent on as it is |
| Header.FormatTimeSpec | frontend/src/components/Header.tsx:37-48 | the label names the largest unit with a non-zero count, and that count is the number of whole units elapsed (so hours stay below 24 and minutes below 60); "Just now" exactly under one minute, a timestamp in the future included |
| Header.BadgeLabel | frontend/src/components/Header.tsx:150-152 | the badge is hidden exactly at a count of zero or less, reads "9+" exactly above nine, and otherwise shows the count itself |
| Header.Icon | frontend/src/components/Header.tsx:50-57 | any type other than device, report, system and subscription gets the bell |
| Header.IconsDistinct | frontend/src/components/Header.tsx:50-57 | the four known types get four distinct glyphs, none of them the bell |
| Header.OnClick | frontend/src/components/Header.tsx:60-80 | a click always closes the dropdown, marks the notification read exactly when it was unread, and navigates exactly for the device, report and subscription types |
| Header.ClickKeepsConsistent | frontend/src/components/Header.tsx:60-64 | a click on a listed notification keeps the unread counter equal to the number of unread items |
| Header.ToolbarFor | frontend/src/components/Header.tsx:163-183 | "Mark all read" is offered exactly with a positive unread count, "Clear all" exactly with a non-empty list |
| Header.ToolbarMarkAllSpec | frontend/src/components/Header.tsx:163-172 | with a consistent counter, "Mark all read" is offered exactly when some item is unread |
| DeviceMap.DeviceStatusSpec | frontend/src/components/DeviceMap.tsx:52-62 | the status is one of Inactive, No Data, Online and Offline, and `online` exactly when it is Online; Inactive exactly for a device not marked active; No Data exactly for an active device without a last update; Online exactly when the last update parses and is less than ten minutes old |
| DeviceMap.ValidDevicesSpec | frontend/src/components/DeviceMap.tsx:135 | the marked devices are exactly the devices with both coordinates, in the list's order |
| DeviceMap.InitialView | frontend/src/components/DeviceMap.tsx:136-143 | the map opens on the route's first point at zoom 13, else on the first marked device at zoom 13, else on the default centre at zoom 10 |
| DeviceMap.InitialViewDefault | frontend/src/components/DeviceMap.tsx:136-143 | the map opens on the default centre exactly when there is no route and no device has both coordinates |
| DeviceMap.RouteCoordinates | frontend/src/components/DeviceMap.tsx:96-97 | the fitted bounds hold every route point's coordinates, one per point, in order |
| DeviceMap.DeviceCoordinates | frontend/src/components/DeviceMap.tsx:101-104 | the fitted bounds hold one coordinate pair per device, each with non-zero coordinates |
| DeviceMap.ControllerPriority | frontend/src/components/DeviceMap.tsx:94-107 | a route always wins; the view centres on a selection exactly without a route and when the selected device has non-zero coordinates (so one at latitude 0 is not centred on); the devices fitted never include one at latitude or longitude 0 |
| DeviceMap.Markers | frontend/src/components/DeviceMap.tsx:174-197 | a start marker at the first point exactly when the route is shown and non-empty, an end marker at the last point exactly when it has more than one point |
| Notifications.Prepended | frontend/src/contexts/NotificationContext.tsx:159 | the new item comes first, followed by the previous items in order, and the list is capped at 50 |
| Notifications.MarkedRead | frontend/src/contexts/NotificationContext.tsx:169-173 | the list keeps its length and every field but `read`, and an item is read afterwards exactly when it was read before or has the given id |
| Notifications.AllRead | frontend/src/contexts/NotificationContext.tsx:178-180 | every item is kept, now read |
| Notifications.FindById | frontend/src/contexts/NotificationContext.tsx:185 | nothing is found exactly when no item has the id; otherwise the first item with that id |
| Notifications.AddCount | frontend/src/contexts/NotificationContext.tsx:159-160 | adding an item counts it when unread and loses the unread items pushed past the cap, so the counter, which always adds one, drifts when an unread item drops off or the added item is already read |
| Notifications.AddKeepsConsistent | frontend/src/contexts/NotificationContext.tsx:159-160 | from a consistent state, adding an unread item stays consistent exactly when the list is below the cap or the items that drop off are all read |
| Notifications.MarkedReadCount | frontend/src/contexts/NotificationContext.tsx:169-173 | with unique ids, marking an id read lowers the number of unread items by one exactly when the item with that id was unread, else leaves it |
| Notifications.MarkAsReadKeepsConsistent | frontend/src/contexts/NotificationContext.tsx:168-175 | `markAsRead` keeps the counter equal to the number of unread items exactly when the id names an unread item, or the counter is already 0; marking a read or absent id makes them drift |
| Notifications.WithoutCount | frontend/src/contexts/NotificationContext.tsx:186 | with unique ids, deleting an id lowers the number of unread items by one exactly when the item with that id was unread |
| Notifications.DeleteKeepsConsistent | frontend/src/contexts/NotificationContext.tsx:184-190 | with unique ids, `deleteNotification` keeps the counter equal to the number of unread items |
| Notifications.WithoutSpec | frontend/src/contexts/NotificationContext.tsx:186 | deleting keeps the other items in order and drops every item with the id |
| Notifications.AllReadCount | frontend/src/contexts/NotificationContext.tsx:177-182 | after marking all read nothing is unread, matching the counter reset to 0 |
| Notifications.MarkedReadIdempotent | frontend/src/contexts/NotificationContext.tsx:169-173 | marking the same id read twice is the same as marking it once |
| Notifications.NotificationCenter.Load | frontend/src/contexts/NotificationContext.tsx:65-81 | a saved list, when present and parsable, replaces the list and the counter is recounted from it; otherwise nothing changes |
| Notifications.NotificationCenter.Add | frontend/src/contexts/NotificationContext.tsx:153-166 | the list becomes the capped prepended list and the counter goes up by one |
| Notifications.NotificationCenter.MarkAsRead | frontend/src/contexts/NotificationContext.tsx:168-175 | the list has the id marked read and the counter goes down by one, never below 0 |
| Notifications.NotificationCenter.MarkAllAsRead | frontend/src/contexts/NotificationContext.tsx:177-182 | every item becomes read and the counter is 0, and the two agree |
| Notifications.NotificationCenter.Delete | frontend/src/contexts/NotificationContext.tsx:184-190 | the items with the id are removed, and the counter goes down by one (never below 0) exactly when the first item with that id was unread |
| Notifications.NotificationCenter.Clear | frontend/src/contexts/NotificationContext.tsx:192-195 | the list is empty and the counter is 0 |
| OrdersSummary.TotalSpentConcat | frontend/src/pages/OrdersSummary.tsx:85-87 | the total spent over two lists of rows is the sum of their totals |
| OrdersSummary.TotalSpentOnlyCompleted | frontend/src/pages/OrdersSummary.tsx:85-87 | rows without a COMPLETED payment add nothing, and with non-negative amounts the total is never negative |
| OrdersSummary.CountsSpec | frontend/src/pages/OrdersSummary.tsx:126-139 | a row is counted as pending exactly when its payment is PENDING and as active exactly when its status is ACTIVE; both counts are at most the number of rows; a pending row is never counted in the total |
| OrdersSummary.StatusColour | frontend/src/pages/OrdersSummary.tsx:61-75 | green exactly for ACTIVE and COMPLETED, red exactly for EXPIRED and FAILED, yellow exactly for PENDING, grey for every other text |
| OrdersSummary.InvoiceLink | frontend/src/pages/OrdersSummary.tsx:242-252 | a row has an invoice link exactly when its payment is COMPLETED, and the link is `/user/orders/<id>/invoice` |
| OrdersSummary.InvoiceLinkColour | frontend/src/pages/OrdersSummary.tsx:234-252 | every row with an invoice link shows a green payment; a row without a payment shows a grey "N/A" and no link |
| OrdersSummary.QueryParams | frontend/src/pages/OrdersSummary.tsx:46-49 | the query leaves out the status exactly for the "ALL" tab and otherwise sends the tab's status; the day range is always sent |
| OrdersSummary.QueryAllMatchesRoute | frontend/src/pages/OrdersSummary.tsx:46-49 | the "ALL" tab's query gets the same orders from the order route as one sending status "ALL" |
| SupportedDevices.TableBody | frontend/src/pages/SupportedDevices.tsx:42-57 | the table shows the single "No devices found" row exactly when the search finds nothing, and otherwise one row per match |
| SupportedDevices.SearchSpec | frontend/src/pages/SupportedDevices.tsx:14-19 | a model is listed exactly when it is in the table and its lower-cased name or protocol includes the lower-cased query, or its port includes the query; the list keeps the table's order; the empty query lists the whole table |
| SupportedDevices.CaseOnlyMatters | frontend/src/pages/SupportedDevices.tsx:14-19 | two queries that lower-case alike match the same names and protocols, the port being compared without case folding |
| SupportedDevices.IncludesLonger | frontend/src/pages/SupportedDevices.tsx:16-18 | `includes` never finds a needle longer than the text |
| SupportedDevices.LongQueryNoMatch | frontend/src/pages/SupportedDevices.tsx:14-57 | a query longer than every name, protocol and port of the table matches nothing, so the page shows "No devices found" |
| SupportedDevices.NoMatchExample | frontend/src/pages/SupportedDevices.tsx:3-57 | searching the shipped four-model table for a model it does not list shows "No devices found" |
| ReportsRoute.RouteGuards | backend/src/routes/reports.ts:12-30 | 400 "Missing parameters" exactly when one of the three parameters is absent or an empty text; otherwise 400 "Invalid deviceId(s)" exactly when the id list is empty; otherwise the report request carries `Number` of the raw parameter and the two dates as text; an empty array passes the first guard but not the second |
| ReportsRoute.DeviceIdsSpec | backend/src/routes/reports.ts:19-21 | every id read from a text is non-empty, and the ids are the trimmed comma-separated parts in their order, with the empty ones dropped |
| ReportsRoute.SingleId | backend/src/routes/reports.ts:19-21 | a text without a comma gives one id, its trimmed self, or none when that is empty |
| ReportsRoute.ListedIdsGiveNaN | backend/src/routes/reports.ts:19-30 | a text listing two or more ids holds a comma, so the request carries NaN as the device id |
| ReportsRoute.TwoIdsExample | backend/src/routes/reports.ts:19-30 | the text "1,2" gives the ids "1" and "2", and the request sent on asks for device NaN |
| ReportsRoute.Route | backend/src/routes/reports.ts:12-30 | the corrected route fails exactly when the route as written fails, with the same error, and otherwise sends one number per parsed id, in order |
| ReportsRoute.RouteAgreesOnOneId | backend/src/routes/reports.ts:19-30 | for a single id without commas the corrected route asks for the same device as the route as written |
| Store.ParsePaymentStatus | backend/src/routes/admin.ts:449-450 | a status filter is accepted only as the name of a payment status, and then names that status |
| Store.ParseSubscriptionStatus | backend/src/routes/user.ts:237 | a status filter is accepted only as the name of a subscription status, and then names that status |
| Store.StatusNamesRoundTrip | backend/src/routes/admin.ts:449-450 | every payment and subscription status is recognised by its own name |
| Store.FindPayment | backend/src/routes/payment.ts:178-180 | `findUnique` on the order id finds a record holding that order id, and none exactly when no record holds it |
| Store.FindPaymentUnique | backend/src/routes/payment.ts:178-180 | with unique order ids the lookup finds exactly the record that holds the id |
| Store.AppendKeepsUniqueOrderIds | backend/src/routes/payment.ts:54-63 | creating a payment whose order id is not yet stored keeps order ids unique |
| Store.FindSubscription | backend/src/routes/payment.ts:202-204 | `findUnique` on the user id finds that user's subscription, and none exactly when the user has none |
| Store.FindSubscriptionUnique | backend/src/routes/payment.ts:202-204 | with one subscription per user the lookup finds exactly that user's record |
| Store.FindPlan | backend/src/routes/payment.ts:36-38 | `findUnique` on the plan id finds a plan with that id, and none exactly when no plan has it |
| Store.FindPlanByPrice | backend/src/routes/payment.ts:213-215 | `findFirst` on the price finds a plan with that price, and none exactly when no plan has it |
| Store.FindUserByEmail | backend/src/routes/auth.ts:156-158 | `findUnique` on the e-mail address finds a user with that address, and none exactly when no user has it |
| Store.FindUser | backend/src/routes/user.ts:13-15 | `findUnique` on the user id finds the user with that id, and none exactly when no user has it |
| Store.ExpireStaleExact | backend/src/cron/expirePendingPayments.ts:39-42 | the sweep changes exactly the PENDING payments created before the cutoff, only their status, and only to FAILED |
| Store.ExpireStaleIdempotent | backend/src/cron/expirePendingPayments.ts:39-42 | after a sweep no stale payment is left, so a second sweep at the same cutoff changes and counts nothing |
| Store.ExpireStaleKeepsOrderIds | backend/src/cron/expirePendingPayments.ts:39-42 | the sweep keeps order ids unique |
| Store.DeactivateLapsedExact | backend/src/cron/cronManager.ts:457-470 | exactly the ACTIVE subscriptions whose end date has passed change, only to EXPIRED; none is left afterwards and subscribers stay unique |
| Store.Expiring | backend/src/cron/cronManager.ts:422-440 | the reminded subscriptions are, in table order, exactly the ACTIVE ones ending between now and seven days from now |
| Store.ExpiringNotLapsed | backend/src/cron/cronManager.ts:422-470 | a subscription due a reminder has not lapsed, so the expiry and reminder jobs never act on the same subscription at one instant |
| Store.DeleteObsoleteExact | backend/src/cron/cronManager.ts:540-555 | the maintenance delete removes a payment exactly when it is FAILED or CANCELLED and created before six months ago, keeps the rest in order, and never deletes a PENDING or COMPLETED payment |
| Store.FindSetting | backend/src/cron/cronManager.ts:587-591 | a setting is found by its key, and none exactly when no setting has it |
| Store.UpsertSpec | backend/src/cron/cronManager.ts:587-591 | after an upsert the key holds the new value, every other key keeps its record, and keys stay unique |
| Store.FindSettingUnique | backend/src/cron/cronManager.ts:587-591 | with unique keys a key is found exactly at the record holding it |
| Store.Db.ExpirePendingBefore | backend/src/cron/expirePendingPayments.ts:39-42 | the payments become `ExpireStale` of the old ones and the count returned is the number of stale records |
| Store.Db.DeactivateExpired | backend/src/cron/cronManager.ts:457-473 | the subscriptions become `DeactivateLapsed` of the old ones and the count returned is the number of lapsed ones |
| Store.Db.DeleteObsoletePayments | backend/src/cron/cronManager.ts:540-557 | the payments become `DeleteObsolete` of the old ones and the count returned is the number deleted |
| Store.Db.AddPayment | backend/src/routes/payment.ts:54-63 | `payment.create` appends the record and keeps the store well formed |
| Store.Db.UpsertSetting | backend/src/cron/cronManager.ts:587-591 | the settings become `Upsert` of the old ones |
| Common.OrElse | backend/src/cron/cronManager.ts:345 | a logical-or default keeps a present, non-empty text and replaces an absent or empty one by the default |
| Common.Coalesce | backend/src/cron/cronManager.ts:82-83 | `o ?? d` replaces only an absent value |
| Common.ToUpper | backend/src/routes/admin.ts:450 | `toUpperCase` maps each character to its upper case and keeps the length |
| Common.Split | backend/src/routes/reports.ts:21 | `split` on one character gives at least one piece and no piece holds the separator |
| Common.JoinSplit | backend/src/routes/reports.ts:21 | joining the pieces of a split with the separator gives the text back |
| Common.SplitJoin | backend/src/routes/reports.ts:21 | splitting a join on a separator that no piece holds gives the pieces back |
| Common.Trim | backend/src/routes/reports.ts:21 | `trim` never lengthens a text and leaves no white space at either end |
| Common.TrimSpec | backend/src/routes/reports.ts:21 | `trim` keeps one contiguous slice of the text, and everything before and after that slice is ECMAScript white space |
| Common.ParseIntOfNatToString | backend/src/cron/cronManager.ts:92 | `parseInt` reads back the decimal text of every natural number |
| Common.CeilDiv | backend/src/routes/payment.ts:131 | `Math.ceil(a / b)` for a positive divisor is the least whole number whose multiple of b covers a |
| Common.RoundDiv | backend/src/routes/admin.ts:420-422 | `Math.round(a / b)` for a positive divisor is the nearest whole number, halves rounding up |
| Common.SortCorrect | backend/src/services/payment.ts:245 | `sort()` on strings returns a permutation of its input in ascending character order |
| Common.FilterMembership | backend/src/routes/reports.ts:21 | an element survives `filter` exactly when it was in the input and satisfies the predicate |

## Left out

- Cryptography: RSA-PSS signing, RSA-SHA256 verification, bcrypt hashing and comparison, JWT signing and verification, `crypto.randomInt` and `crypto.randomBytes` are function parameters or given values. The model assumes nothing about them beyond their result types.
- HTTP: axios calls, timeouts, headers and the global `httpsAgent` are not modelled. The token, pre-order and checkout calls are function parameters whose replies are a status and a body, no reply, or a setup failure.
- `JSON.parse` and `JSON.stringify` are parameters or opaque texts. JSON numbers are integers in this model.
- Persistence: Prisma is an in-memory store of sequences (`Store.Db`) with the schema's unique keys as its invariant. Cascading deletes, `updatedAt` stamps and the record fields no rule reads are not modelled.
- Ordering: `orderBy` clauses are not modelled, so rows come in table order.
- Scheduler: node-cron timing and `cron.validate` are not modelled. Schedule validity is a function parameter, and a tick is an explicit method call.
- Concurrency: overlapping callbacks, sweeps and async interleavings are not modelled. Every handler is one atomic sequential step.
- Floating point: haversine distance, average speed and the two-decimal rounding of distances in the report summary are left out. Amounts are integers in hundredths and times are integer milliseconds. Speeds are whole numbers and coordinates are whole millionths of a degree, where the code has doubles: so the map's truthiness tests on coordinates (`DeviceMap.Controller`, `DeviceMap.ControllerPriority`) are not modelled for a coordinate between 0 and one millionth.
- Admin.Summarize: the two-decimal rounding of the maximum speed (`Math.round(maxSpeed * 100) / 100`, backend/src/routes/admin.ts:418) is left out; on whole-number speeds it is the identity, so `maxSpeed` is the plain maximum.
- Dashboard.Utilize: the percentage rounds the exact quotient `100 * used / limit` half up, whereas `Math.round(used / limit * 100)` rounds a double, so the two differ where the double product falls just below a half (23 devices on a limit of 40 give 57 in the code and 58 here); Dashboard.UtilizationBounds is stated for the exact quotient.
- Dashboard.StatsOnlyForAdmin: `backend/src/routes/dashboard.ts:11` and `:22` call `createError(401, 'Unauthorized')` and `createError(404, 'User not found')` with the status first, while every other call site passes the message first (`backend/src/routes/admin.ts:173`, `backend/src/routes/auth.ts:59`); the status the error handler then sends depends on `errorHandler`, which is not part of this model, so the model states the intended 401 and 404.
- PaymentRoutes.Callback: the store method applies the handler as the code has it, looking the payment up by the raw echoed id; the corrected look-up by sanitised id (`PaymentRoutes.CallbackEchoed`, `PaymentRoutes.RedirectEchoed`) is stated on the functions only.
- Telebirr.ParseAmount: `parseFloat` is modelled only on amounts that are a whole number of hundredths; other values give no amount.
- Calendar: `setDate(+7)` and one day are a fixed 86,400,000 ms. `setMonth(-6)` is a parameter giving the instant six months ago.
- Text: strings are sequences of code points. `length` counts UTF-16 units for characters outside the Basic Multilingual Plane, and the model counts those characters once. `toLowerCase` and `toUpperCase` are modelled on ASCII letters only. `sort()` compares code points, which agrees with UTF-16 order inside the Basic Multilingual Plane.
- `Number(...)` and `parseInt` edge cases (hexadecimal, exponents, white space inside) are parameters or covered only for decimal text.
- E-mail: sending (`sendEmail`, the reminder and test e-mails, the invoice mailer) is left out. The reminder job returns the subscriptions it would remind.
- Rendering: the PDF generator, the invoice route's PDF output and the layout of the invoice HTML are not modelled; React rendering, toasts, routing and `localStorage` are not modelled either (the notification list's storage is the value a load reads).
- Socket.IO, Google OAuth, rate limiting and the Traccar proxies are not modelled: they are transport wrappers with no rule of their own.
- Payment routes: GET `/history` and GET `/status/:orderId` are not modelled. They are plain look-ups with no rule beyond the store's own queries.
- Account routes: GET `/profile` and POST `/logout` are not modelled. They only read a record or clear cookies.
- Admin routes: GET `/stats`, GET `/devices`, DELETE `/devices/:id`, POST `/send-reminders`, POST `/test-traccar` and GET `/devices/:id/positions` are not modelled. They are counts, Traccar proxies or e-mail loops with no rule beyond the ones modelled elsewhere.
- Errors: `createError` and the error handler are not part of this model. Each error is modelled by its status and message.
- The role a new user gets (`"USER"`) is the schema default, a constant in the model.
- The `debugCronJobs` function and the process-exit cleanup of the registry only log and stop tasks, and are not modelled.
- A throwing `task.stop()` is not modelled: a task with a `stop` function is assumed to stop.
- The stand-alone sweeper's log lines and its caught errors are not modelled beyond the fact that an error leaves the store unchanged.

## Findings

| source | as written | input that shows it | evidently intended | confidence | as-written member | corrected member |
|---|---|---|---|---|---|---|
| backend/src/routes/reports.ts:29-30 | the report is requested for `Number` of the raw `deviceId` parameter, not for the list parsed from it | `deviceId=1,2` parses to the ids "1" and "2", but `Number("1,2")` is NaN, so device NaN is requested | the parsed, trimmed list of ids is sent on, one number per id | not executed | ReportsRoute.RouteAsWritten | ReportsRoute.Route |
| backend/src/services/payment.ts:196 | the gateway is sent the order id with every non-alphanumeric character removed, but `/redirect` and `/callback` look the payment up by the id the gateway echoes, compared with the stored order id (`backend/src/routes/payment.ts:107-109`, `backend/src/routes/payment.ts:177-180`) | the order id `ORDER_1700000000000_abc123` (`backend/src/routes/payment.ts:52`) is sent as `ORDER1700000000000abc123`; a redirect or callback echoing that id finds no payment and answers 404 "Payment not found", so no payment is ever completed | the echoed id resolves to the payment whose order id it was made from | not executed | PaymentRoutes.CallbackWithSanitisedIdNotFound | PaymentRoutes.CallbackEchoedSpec |
