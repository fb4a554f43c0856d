# Loan-risk dashboard: a Dafny model of the browser client

This project models the client of a loan-risk dashboard in Dafny and proves
properties of that model. Users register and log in against an account store
kept in browser storage. They submit loan applications to a scoring service,
which is guarded by a client-side rate limiter. The results go into a capped
prediction history, which the analytics page summarises. Administrators list,
filter, promote, demote, deactivate, activate, edit and delete accounts.

The modules follow the source files:

- `Common`: the application record, the score result, the storage-slot
  model and the shared configuration constants.
- `PasswordHash`: the 32-bit string hash and its base-36 and base-10
  renderings.
- `Accounts`: the account record, the registration and login checks, and
  the consistency invariant of the account map and the admin set.
- `Auth`: the primary identity store, as a class.
- `AuthBackup`: the second identity store, as a class. It adds a session
  table and the user-editing operations.
- `Admin`: the admin dashboard's statistics, filters, row actions and
  top-five ranking, plus a class for the handlers that drive the store.
  The handlers call `getAllUsers`, `getUser` and `updateUser`, which only
  the backup store defines, so the model connects them to that store.
- `Utils`: risk banding, form validation, text truncation and fallback
  reads of stored keys.
- `Api`: the rate limiter and the shape of the scoring request.
- `Predictions`: the capped history ledger, the recommendation and
  explanation rules, and the prediction handler.
- `Analytics`: the KPIs, the risk distribution, the CIBIL buckets, the
  history table and the detail lookup.

Browser storage is one field per key, of type `Slot<T>`. A key is either
`Absent`, `Corrupt` (its text does not parse) or `Holds(v)`. Things the
stores cannot observe are passed in as parameters: clock readings, session
ids and prediction ids, and the scoring service's response. The invariant
`Accounts.Consistent` says three things:

- every account is stored under its own username;
- no two accounts share an email;
- the admin set is exactly the set of accounts whose role is `admin`.

Each mutating operation is proved to preserve it. It is established by the
defaults, and stays conditional when accounts are read back from storage.

## Model

| member | source | states |
|---|---|---|
| PasswordHash.ToInt32 | loan-frontend/auth.js:78-79 | `hash & hash` maps any integer into the signed 32-bit range and leaves in-range values unchanged |
| PasswordHash.ToInt32Shift | loan-frontend/auth.js:78-79 | the 32-bit conversion ignores multiples of 2^32 |
| PasswordHash.WrapInsideStep | loan-frontend/auth.js:78-79 | wrapping before or after one step `31*h + c` gives the same 32-bit value |
| PasswordHash.ShiftFormIsTimes31 | loan-frontend/auth.js:78 | `(h << 5) - h + c`, with the shift wrapping to 32 bits, equals `31*h + c` wrapped to 32 bits |
| PasswordHash.HashFold | loan-frontend/auth.js:74-80 | the folded hash of a password is always a signed 32-bit integer |
| PasswordHash.HashFoldIsWrappedPoly | loan-frontend/auth.js:74-80 | the step-by-step wrapped fold equals the base-31 polynomial of the character codes, wrapped once at the end |
| PasswordHash.FoldCodes | loan-frontend/auth.js:75-80 | the loop over the characters computes exactly the folded hash, in the signed 32-bit range |
| PasswordHash.ToBase | loan-frontend/auth.js:81 | `toString(base)` of a natural number is a non-empty digit string |
| PasswordHash.ToBaseDigits | loan-frontend/auth.js:81 | every character of the rendering is a digit of the base |
| PasswordHash.FromToBase | loan-frontend/auth.js:81 | reading the rendering back in the same base gives the number: the rendering is injective |
| PasswordHash.DigestEqualIff | loan-frontend/auth-backup.js:69-78 | two passwords give equal digests exactly when their hashes have equal absolute values, in base 36 and in base 10 |
| PasswordHash.DigestShape | loan-frontend/auth.js:81 | a digest is `hash_` followed by at least one digit of its base (36 for the primary store, 10 for the backup store, auth-backup.js:77) |
| PasswordHash.Digest36 | loan-frontend/auth.js:81 | the primary store's digest: `hash_` and the base-36 magnitude of the fold (its properties are DigestShape and DigestEqualIff) |
| PasswordHash.Digest10 | loan-frontend/auth-backup.js:77 | the backup store's digest: `hash_` and the decimal magnitude of the fold |
| PasswordHash.KnownCollision | loan-frontend/auth.js:74-82 | the distinct passwords "Aa" and "BB" have the same digest, so the digest alone does not identify a password |
| Accounts.RegisterCheck | loan-frontend/auth.js:113-131 | registration fails with the first failing check, in source order: missing field, password mismatch, password under 6 characters, username taken, email taken; it passes iff all five pass |
| Accounts.NewAccount | loan-frontend/auth.js:133-145 | the record registration stores: the given name, email, digest and full name, role `user`, created now, never logged in, zero logins and predictions, status `active` |
| Accounts.DefaultUsers | loan-frontend/auth.js:49-64 | the defaults hold exactly one account, `admin`: role admin, active, no logins, no predictions, the given password digest |
| Accounts.LoadedUsers | loan-frontend/auth.js:19-33 | a parsable stored map is used as is; a missing or unparsable key gives the defaults |
| Accounts.LoadedAdmins | loan-frontend/auth.js:35-46 | a parsable stored admin list is used as is; otherwise the set `{admin}` |
| Accounts.LoginCheck | loan-frontend/auth.js:157-175 | login succeeds iff the user exists, the digest matches and the status is `active`; an unknown user and a wrong password give the same error; an inactive account is reported only after the password matches |
| Accounts.DefaultConsistent | loan-frontend/auth.js:29-45 | the default account map and the default admin set satisfy the store invariant |
| Accounts.RegisterPreservesConsistency | loan-frontend/auth.js:133-145 | adding an account that passed the registration checks keeps the invariant and adds exactly one entry |
| Accounts.SameKeyFieldsPreserveConsistency | loan-frontend/auth.js:227-243 | replacing an account by one with the same username, email and role keeps the invariant |
| Accounts.PromotePreservesConsistency | loan-frontend/auth.js:205-214 | setting the role to admin and adding the name to the admin set keeps the invariant |
| Accounts.DemotePreservesConsistency | loan-frontend/auth.js:216-225 | setting the role to user and removing the name from the admin set keeps the invariant |
| Accounts.DeletePreservesConsistency | loan-frontend/auth.js:245-254 | removing an account and its admin entry keeps the invariant |
| Auth.RestoredUser | loan-frontend/auth.js:84-98 | exactly when both keys hold non-empty text and the username is still an account, the current user becomes the view of that account (email, full name, role) under the stored username and session id; otherwise the current user is unchanged |
| Auth.AuthStore.constructor | loan-frontend/auth.js:6-10 | a fresh store has nobody logged in, no accounts and no admins, over the given storage contents |
| Auth.AuthStore.IsLoggedIn | loan-frontend/auth.js:100-102 | someone is logged in when a current user is held |
| Auth.AuthStore.IsAdmin | loan-frontend/auth.js:104-107 | the current user's name is in the admin set, which implies someone is logged in |
| Auth.AuthStore.HashPassword | loan-frontend/auth.js:74-82 | the method's result is the base-36 digest |
| Auth.AuthStore.GetDefaultUsers | loan-frontend/auth.js:49-64 | the defaults use the digest of `admin123` |
| Auth.AuthStore.LoadUsers | loan-frontend/auth.js:19-47 | the store reads both keys by the fallback rule; only a missing key is written back with the defaults; with neither key parsable the invariant holds |
| Auth.AuthStore.CheckSession | loan-frontend/auth.js:84-98 | the current user becomes the restored session, if any |
| Auth.AuthStore.Init | loan-frontend/auth.js:11-17 | start-up loads the accounts, then restores the session from the keys as they were |
| Auth.AuthStore.Register | loan-frontend/auth.js:109-150 | the outcome is the registration check; on success exactly the new active `user` account is added and saved; on failure nothing changes; the invariant is preserved |
| Auth.AuthStore.Login | loan-frontend/auth.js:152-195 | the outcome is the login check; on success the session view, both keys, the last login time and the incremented login count are set; on failure nothing changes; under the invariant, the new user is an admin iff the account's role is admin |
| Auth.AuthStore.Logout | loan-frontend/auth.js:197-203 | nobody is logged in and both session keys are removed |
| Auth.AuthStore.PromoteToAdmin | loan-frontend/auth.js:205-214 | succeeds iff the account exists and is not `admin`; then the name joins the admin set and the role becomes admin; otherwise nothing changes |
| Auth.AuthStore.DemoteFromAdmin | loan-frontend/auth.js:216-225 | succeeds iff the name is not `admin`; then the name leaves the admin set and the role becomes user |
| Auth.AuthStore.DeactivateUser | loan-frontend/auth.js:227-234 | succeeds iff the account exists; only its status changes, to inactive |
| Auth.AuthStore.ActivateUser | loan-frontend/auth.js:236-243 | succeeds iff the account exists; only its status changes, to active |
| Auth.AuthStore.DeleteUser | loan-frontend/auth.js:245-254 | succeeds iff the name is not `admin`, removing the account and its admin entry |
| Auth.AuthStore.IncrementPredictionCount | loan-frontend/auth.js:256-261 | an existing account's prediction count goes up by one; an unknown name changes nothing |
| Auth.BootFromEmptyStorage | loan-frontend/auth.js:11-47 | starting on empty storage gives the single default admin, writes both keys, leaves nobody logged in and satisfies the invariant |
| AuthBackup.Merge | loan-frontend/auth-backup.js:206-213 | `{...user, ...updates}`: for each of the ten record fields, a value given in the update replaces the stored one, and every other field is kept; an empty update changes nothing |
| AuthBackup.MergeIdempotent | loan-frontend/auth-backup.js:206-213 | applying the same update twice gives the record applying it once does |
| AuthBackup.UpdateCanDuplicateEmail | loan-frontend/auth-backup.js:206-213 | an update may give an account another account's email, which breaks email uniqueness |
| AuthBackup.UpdateKeepingKeysPreservesConsistency | loan-frontend/auth-backup.js:206-213 | an update that keeps the email and the role keeps the invariant |
| AuthBackup.BackupAuthStore.constructor | loan-frontend/auth-backup.js:6-10 | a fresh store has no user, no accounts, no sessions and no admins |
| AuthBackup.BackupAuthStore.IsLoggedIn | loan-frontend/auth-backup.js:190-192 | someone is logged in when a current user is held |
| AuthBackup.BackupAuthStore.IsAdmin | loan-frontend/auth-backup.js:194-196 | the current user's name is in the admin set, which implies someone is logged in |
| AuthBackup.BackupAuthStore.HashPassword | loan-frontend/auth-backup.js:69-78 | the result is the base-10 digest |
| AuthBackup.BackupAuthStore.GetDefaultUsers | loan-frontend/auth-backup.js:44-59 | the defaults use the base-10 digest of `admin123` |
| AuthBackup.BackupAuthStore.LoadUsers | loan-frontend/auth-backup.js:18-42 | the same fallback reads as the primary store |
| AuthBackup.BackupAuthStore.Register | loan-frontend/auth-backup.js:80-118 | the same five checks in the same order; success adds the account with the base-10 digest; the invariant is preserved |
| AuthBackup.BackupAuthStore.Login | loan-frontend/auth-backup.js:120-164 | as in the primary store, and success also records a session that expires 24 hours after login, stores the whole view and stores the session id |
| AuthBackup.BackupAuthStore.Logout | loan-frontend/auth-backup.js:166-174 | always reports success; drops the current session's entry when its id is non-empty; clears the user and both keys |
| AuthBackup.BackupAuthStore.CheckSession | loan-frontend/auth-backup.js:176-188 | restores iff the stored view parses, without checking that the account still exists; unparsable text logs out, dropping the current session's entry from the session map as logout does; a missing key changes nothing |
| AuthBackup.BackupAuthStore.Init | loan-frontend/auth-backup.js:12-16 | start-up loads the accounts, then restores the session view from the key as it was; unparsable text logs out and drops the current session's entry |
| AuthBackup.BackupAuthStore.GetUser | loan-frontend/auth-backup.js:198-200 | the stored record iff the name is an account |
| AuthBackup.BackupAuthStore.GetAllUsers | loan-frontend/auth-backup.js:202-204 | every stored record exactly once, in some order of the keys |
| AuthBackup.BackupAuthStore.UpdateUser | loan-frontend/auth-backup.js:206-213 | succeeds iff the account exists; it then becomes the merge of the record and the update |
| AuthBackup.BackupAuthStore.DeleteUser | loan-frontend/auth-backup.js:215-224 | succeeds iff the account exists, with no protection for `admin`; it removes the account and its admin entry |
| AuthBackup.BackupAuthStore.PromoteToAdmin | loan-frontend/auth-backup.js:226-235 | succeeds iff the account exists, `admin` included |
| AuthBackup.BackupAuthStore.DemoteFromAdmin | loan-frontend/auth-backup.js:237-246 | succeeds iff the name is not `admin` |
| AuthBackup.BackupAuthStore.DeactivateUser | loan-frontend/auth-backup.js:248-255 | succeeds iff the account exists; only its status changes |
| AuthBackup.BackupAuthStore.ActivateUser | loan-frontend/auth-backup.js:257-264 | succeeds iff the account exists; only its status changes |
| AuthBackup.BackupAuthStore.IncrementPredictionCount | loan-frontend/auth-backup.js:266-271 | an existing account's count goes up by one |
| Admin.CountStatus | loan-frontend/admin.js:112 | the number of accounts with a status never exceeds the number of accounts |
| Admin.CountRole | loan-frontend/admin.js:131-133 | the number of accounts with a role never exceeds the number of accounts |
| Admin.ComputeStats | loan-frontend/admin.js:106-117 | the totals count the accounts and the admin set; the active count counts status `active` (≤ total); the prediction total sums every account's predictions; with no accounts the average is 0, otherwise average × total = the prediction total |
| Admin.PermutationKeepsTotals | loan-frontend/admin.js:112-114 | the active count and the prediction total are the same for any reordering of the accounts |
| Admin.EnumerationsPermute | loan-frontend/auth-backup.js:202-204 | any two listings of the stored records hold the same records, possibly in another order |
| Admin.StatsIndependentOfOrder | loan-frontend/admin.js:106-117 | the statistics are the same whatever order the store lists its records in |
| Admin.KeepStatusIsMatching | loan-frontend/admin.js:267-269 | the status filter keeps, in order, exactly the accounts with that status |
| Admin.KeepRoleIsMatching | loan-frontend/admin.js:270-272 | the role filter keeps, in order, exactly the accounts with that role |
| Admin.KeepRoleOfMatching | loan-frontend/admin.js:267-272 | applying the role filter after the status filter gives the combined selection |
| Admin.MatchingAllIsIdentity | loan-frontend/admin.js:7-11 | with both filters on `all`, every account is listed |
| Admin.FilterUsers | loan-frontend/admin.js:264-272 | the two-step filtering equals the one-pass selection of the accounts that pass both filters; with both filters on `all` every account is kept |
| Admin.MatchingMembership | loan-frontend/admin.js:264-272 | an account is listed iff it is stored and passes both filters |
| Admin.MatchingIsSubsequence | loan-frontend/admin.js:264-272 | filtering keeps the accounts in their original order |
| Admin.ActiveCountIsFilterLength | loan-frontend/admin.js:112 | the active count in the statistics equals the length of the table filtered on `active` |
| Admin.ActionsFor | loan-frontend/admin.js:296-318 | the buttons of a row: demote for a member of the admin set other than `admin`, else promote for role `user`; deactivate for an active account other than `admin`, else activate for an inactive one; delete for every account but `admin` (its properties are the three lemmas below) |
| Admin.BootstrapRowProtected | loan-frontend/admin.js:296-318 | the `admin` row never offers demote, deactivate or delete |
| Admin.RoleButtonUnderConsistency | loan-frontend/admin.js:296-304 | under the invariant, a row offers demote iff the account is an admin other than `admin`, and promote iff its role is user |
| Admin.StatusButtonMatchesStatus | loan-frontend/admin.js:305-313 | deactivate is offered only to active accounts and activate exactly to inactive ones |
| Admin.CountRoleOverKeys | loan-frontend/admin.js:131-133 | counting a role over an enumeration of the map counts the keys with that role |
| Admin.AdminSliceMatchesAdminSet | loan-frontend/admin.js:131-133 | under the invariant, the admin slice of the role chart equals the size of the admin set and is at most the number of accounts |
| Admin.RoleSlicesBounded | loan-frontend/admin.js:131-133 | the admin and user slices together never exceed the number of accounts |
| Admin.InsertDesc | loan-frontend/admin.js:200-201 | inserting into the ranking adds exactly that account |
| Admin.InsertDescSorted | loan-frontend/admin.js:200-201 | insertion keeps the ranking in descending order of predictions |
| Admin.SortByPredictions | loan-frontend/admin.js:200-201 | the sort is a permutation of the accounts |
| Admin.SortByPredictionsSorted | loan-frontend/admin.js:200-201 | the sort orders accounts by predictions, highest first |
| Admin.TopByPredictions | loan-frontend/admin.js:199-202 | the top list has min(5, n) entries, is in descending order of predictions and is drawn from the accounts without repetition |
| Admin.TopByPredictionsBest | loan-frontend/admin.js:199-202 | no account left out of the top list has more predictions than one listed |
| Admin.AdminDashboard.constructor | loan-frontend/admin.js:7-11 | both filters start at `all` and the date range at `7d` |
| Admin.AdminDashboard.SetStatusFilter | loan-frontend/admin.js:36-39 | the status filter takes the chosen value |
| Admin.AdminDashboard.SetRoleFilter | loan-frontend/admin.js:44-47 | the role filter takes the chosen value |
| Admin.AdminDashboard.SetDateRange | loan-frontend/admin.js:10 | the date range takes the chosen value |
| Admin.AdminDashboard.CalculateSystemStats | loan-frontend/admin.js:106-117 | the result is the statistics of a listing of the stored records (the same for every listing), so the totals are the numbers of stored accounts and admins; under the invariant there are no more admins than accounts |
| Admin.AdminDashboard.LoadUsersTable | loan-frontend/admin.js:260-321 | the rows are the table rows of a listing of the stored records: one per account passing both filters, in listing order, with the actions its status and role give; each is a stored account |
| Admin.AdminDashboard.DeleteUser | loan-frontend/admin.js:356-367 | `admin` is refused; otherwise the account goes (from the map and the admin set, both saved) only if the admin confirms; a refused or cancelled call changes nothing; the current user, the session map and both session keys are unchanged, so a deleted logged-in account stays logged in; the invariant is preserved |
| Admin.AdminDashboard.PromoteUser | loan-frontend/admin.js:369-373 | an existing account becomes an admin, with map and admin set saved; an unknown name changes nothing; the current user, the session map and both session keys are unchanged; the invariant is preserved |
| Admin.AdminDashboard.DemoteUser | loan-frontend/admin.js:375-384 | `admin` is refused and nothing changes; any other account becomes a user and leaves the admin set, both saved; the current user, the session map and both session keys are unchanged |
| Admin.AdminDashboard.DeactivateUser | loan-frontend/admin.js:386-395 | `admin` is refused and nothing changes; any other existing account becomes inactive and the map is saved; the admin set, the current user, the session map and both session keys are unchanged |
| Admin.AdminDashboard.ActivateUser | loan-frontend/admin.js:397-401 | an existing account becomes active and the map is saved; an unknown name changes nothing; the admin set, the current user, the session map and both session keys are unchanged |
| Admin.AdminDashboard.SaveUserEdit | loan-frontend/admin.js:339-354 | the edit replaces the full name, email and status of an existing account and saves the map; the admin set, the current user, the session map and both session keys are unchanged |
| Admin.AdminDashboard.AddNewUser | loan-frontend/admin.js:411-434 | missing fields are refused before registration; otherwise registration with the password as its own confirmation decides; an added account is exactly the new record (with the admin role when chosen) and every other account is unchanged; the admin set gains it only when the admin role was chosen; a call that adds nothing changes nothing; the current user, the session map and both session keys are unchanged |
| Admin.TableRows | loan-frontend/admin.js:274-320 | exactly one row per account passing both filters, in the order of the one-pass selection, each carrying that account's actions |
| Utils.Round | loan-frontend/utils.js:30 | `Math.round` gives the integer within half of x, halves rounded up |
| Utils.RoundMonotone | loan-frontend/utils.js:30 | rounding is monotone |
| Utils.GetRiskLevel | loan-frontend/utils.js:23-31 | Low iff p ≤ 0.33, Medium iff 0.33 < p ≤ 0.66, High iff p > 0.66; the score is round(100p); the colour follows the band |
| Utils.RiskBoundaries | loan-frontend/config.js:91-95 | the thresholds are inclusive: 0.33 is Low and 0.66 is Medium |
| Utils.RiskScoreBounds | loan-frontend/utils.js:23-31 | a probability gives a score between 0 and 100 |
| Utils.RiskMonotone | loan-frontend/utils.js:23-31 | a higher probability never gives a lower band or score |
| Utils.ValidateInputs | loan-frontend/utils.js:131-151 | no errors iff all four fields are in their inclusive ranges; an error is reported iff its field is out of range; errors come in field order, at most four |
| Utils.TruncateText | loan-frontend/utils.js:218-220 | text no longer than the limit is kept; longer text is cut to the clamped limit and followed by `...` |
| Utils.TruncateIdempotent | loan-frontend/utils.js:218-220 | truncating twice to the same limit is truncating once |
| Utils.TruncateLength | loan-frontend/utils.js:218-220 | the result has at most limit + 3 characters, or 3 for a negative limit |
| Utils.LoadFromLocalStorage | loan-frontend/utils.js:89-97 | the parsed value when the key holds parsable text, the default otherwise |
| Utils.StoreLoadsAreFallbackReads | loan-frontend/auth.js:19-46 | the stores' reads of their account and admin keys are fallback reads with the bootstrap defaults |
| Api.Step | loan-frontend/api.js:82-89 | a call is accepted iff at least 3000 ms have passed since the last accepted one; only an accepted call moves the timestamp |
| Api.FinalLastIsLastAccepted | loan-frontend/api.js:82-89 | after any run of calls, the timestamp is the last accepted call's time, or the start value if none was accepted |
| Api.AcceptedSpaced | loan-frontend/api.js:82-89 | consecutive accepted calls are at least 3000 ms apart, the first at least that long after the start |
| Api.AcceptedPairwiseSpaced | loan-frontend/api.js:82-89 | any two accepted calls are at least 3000 ms apart |
| Api.FirstCallFromStart | loan-frontend/api.js:79-89 | with the timestamp starting at 0, the first accepted call is at time 3000 or later |
| Api.Scenarios | loan-frontend/api.js:82-89 | a call one second after an accepted one is refused; one four seconds after is accepted |
| Api.RateLimiter.constructor | loan-frontend/api.js:79 | the timestamp starts at 0 |
| Api.RateLimiter.CheckRateLimit | loan-frontend/api.js:82-89 | the decision and the new timestamp are those of the limiter step |
| Api.PredictSingleRequest | loan-frontend/api.js:64-67 | a single prediction sends an array holding just that application |
| Api.PredictBatchRequest | loan-frontend/api.js:70-72 | a batch prediction sends the applications as given, in order |
| Api.SingleIsBatchOfOne | loan-frontend/api.js:64-72 | a single request sends the same body as a batch of one |
| Predictions.MakeHistoryItem | loan-frontend/predictions.js:382-392 | the history entry keeps the id, time, decision, income, loan, CIBIL score and whole prediction, and the risk band of the rejection probability |
| Predictions.Inserted | loan-frontend/predictions.js:394-399 | the new entry goes first, older entries shift down by one, and the length is capped at 20 |
| Predictions.InsertedDropsOnlyOldest | loan-frontend/predictions.js:394-399 | below the cap nothing is dropped; at the cap only the oldest entry is dropped |
| Predictions.InsertAllNewestFirst | loan-frontend/predictions.js:394-399 | after a run of insertions, the history is the newest 20 of all entries, newest first |
| Predictions.TwentyOneInserts | loan-frontend/predictions.js:394-399 | after 21 insertions into an empty history, the first one is gone and the rest are in reverse order |
| Predictions.PredictionLedger.constructor | loan-frontend/predictions.js:4 | the history starts empty over the stored key |
| Predictions.PredictionLedger.LoadPredictionHistory | loan-frontend/predictions.js:412-414 | the history is the stored list, or empty when the key is missing or unparsable |
| Predictions.PredictionLedger.AddToPredictionHistory | loan-frontend/predictions.js:381-402 | the history becomes the capped insertion of the new entry and is written back |
| Predictions.RatioExceedsMonotone | loan-frontend/predictions.js:313-326 | exceeding a larger loan-to-income ratio implies exceeding a smaller one, with JavaScript's division by zero modelled |
| Predictions.SuggestedAmount | loan-frontend/predictions.js:316 | the suggested amount is 40% of income, rounded down |
| Predictions.Recommendations | loan-frontend/predictions.js:300-331 | each advice appears iff its rule fires: CIBIL under 650, loan over 40% of income, assets under the loan, loan over 50% of income; the list is exactly the fallback pair (reapply later, consult an advisor) iff no rule fires |
| Predictions.RecommendationsShape | loan-frontend/predictions.js:300-331 | there are one to four pieces of advice, the reapply advice appears only as part of the fallback pair, and a suggested lower amount is 40% of annual income rounded down |
| Predictions.RecommendationsInRuleOrder | loan-frontend/predictions.js:300-331 | the advice appears in the order the rules are checked, each at most once |
| Predictions.IncomeAdviceImpliesLowerAmount | loan-frontend/predictions.js:313-326 | advice to raise income always comes with advice to borrow less |
| Predictions.SuggestionIsLower | loan-frontend/predictions.js:313-318 | when offered, the suggested amount is below the amount asked for |
| Predictions.ShownRecommendations | loan-frontend/predictions.js:139-144 | advice is shown only for a rejected application |
| Predictions.Explain | loan-frontend/predictions.js:234-292 | each factor band is characterised by its thresholds: CIBIL < 500 / < 750, ratio > 0.5 / > 0.3, assets > 2× loan / > loan, employment, decision |
| Predictions.ExplanationAgreesWithAdvice | loan-frontend/predictions.js:241-331 | the explanation and the advice agree: a high ratio iff income advice; a healthy ratio means no lower-amount advice; collateral advice means weak assets (for a non-negative loan); a poor CIBIL band means CIBIL advice |
| Predictions.WeakAssetsWithoutCollateralAdvice | loan-frontend/predictions.js:266-279 | assets equal to the loan are shown as weak yet get no collateral advice |
| Predictions.HandlePrediction | loan-frontend/predictions.js:21-79 | the rate limit is checked first, then validation, then the service call; only a completed prediction is added to the history; every failure leaves the history untouched |
| Analytics.CountStatus | loan-frontend/analytics.js:33-34 | a decision count never exceeds the history length |
| Analytics.DecisionCountsBounded | loan-frontend/analytics.js:33-35 | approved plus rejected never exceeds the total |
| Analytics.Percentage | loan-frontend/analytics.js:36 | a share is between 0 and 100 and equals part × 100 / total |
| Analytics.ComputeKpis | loan-frontend/analytics.js:18-57 | an empty history gives all zeros; otherwise the total is the history length, the counts are the decision counts (together at most the total), and each rate is that count's percentage of the total, between 0 and 100 |
| Analytics.AvgRiskBounds | loan-frontend/analytics.js:39-43 | with probabilities in [0, 1], the average risk score lies between 0 and 100 |
| Analytics.MeanScore | loan-frontend/analytics.js:39-43 | the average risk score: the rounded mean of the scores (bounded by AvgRiskBounds) |
| Analytics.SumScoresBounds | loan-frontend/analytics.js:40-42 | the score sum is between 0 and 100 per entry |
| Analytics.BandsPartition | loan-frontend/analytics.js:108-116 | every entry falls in exactly one of the three risk bands |
| Analytics.RiskDistribution | loan-frontend/analytics.js:108-116 | the loop's counters are the band counts and add up to the history length |
| Analytics.BucketsDisjoint | loan-frontend/analytics.js:220-233 | the half-open CIBIL buckets do not overlap; scores below 300, and the valid maximum 900 itself, fall in no bucket |
| Analytics.CibilBuckets | loan-frontend/analytics.js:218-235 | the nested loops give, for each of the four buckets, the number of approved and of other entries in it |
| Analytics.BucketsCoverChartRange | loan-frontend/analytics.js:218-235 | the buckets together count exactly the entries with a score in [300, 900) |
| Analytics.FirstIndex | loan-frontend/analytics.js:381 | the position of the first entry with the id, or none when no entry has it |
| Analytics.FindById | loan-frontend/analytics.js:381-382 | the lookup finds an entry with the id iff one exists |
| Analytics.ViewPredictionDetail | loan-frontend/analytics.js:380-392 | a found entry's full prediction becomes current; an unknown id leaves the current prediction unchanged |
| Analytics.NewestEntryFound | loan-frontend/analytics.js:380-392 | the entry just added can be looked up by its id and brings back the prediction that was added |
| Analytics.HistoryRows | loan-frontend/analytics.js:355-361 | the table has one row per entry, in order, numbered from 1 |
| Analytics.RowsAfterInsert | loan-frontend/analytics.js:355-361 | after an insertion the new entry is row 1 and the kept entries move down one row |

## Left out

- The page itself is not modelled: DOM rendering, charts, notifications, modals, navigation, timers, the countdown of `applyRateLimit`, and the `isRateLimited` flag it sets.
- Network I/O: the scoring service's reply is a parameter of `HandlePrediction`. An empty reply array, transport errors, the health check and the Python backend are not modelled.
- The clock, `generateSessionId` and `generateUUID` are not modelled. Times and ids are parameters, and times are integers rather than ISO strings.
- Numbers are reals. NaN, IEEE rounding and `toFixed`/`Intl` formatting are not modelled. A NaN field, which passes `validateInputs` in JavaScript, has no counterpart here.
- Character codes are modelled as Unicode scalar values. JavaScript's UTF-16 code units differ for characters outside the Basic Multilingual Plane: the password fold, and the length and cut point of `truncateText`, count such a character once here where JavaScript counts two code units.
- JSON parsing is modelled as "parsable or not". Values that parse but have the wrong shape (a non-object, missing fields) are not modelled. Accounts read from storage are therefore not known to satisfy the invariant, and the invariant holds only under that assumption.
- Property-name quirks of plain JavaScript objects (`__proto__`, inherited keys, numeric-key ordering) are not modelled. The order of `Object.values` is modelled only as some enumeration of the keys.
- `saveCurrentInputs`/`loadSavedInputs`, the `activeNow` random figure, the login-activity chart, the activity log, the system health panel, the history filters and the downloads are not modelled.
- Admin.SortByPredictions: the sort's stability is not stated. The top-five lemma therefore says which accounts can appear, not which of several accounts with equal counts does.
- Auth.AuthStore.DemoteFromAdmin: requires the account to exist when the name is not `admin`. The source dereferences the record after removing the name from the admin set and throws for an unknown name.
- AuthBackup.BackupAuthStore.DemoteFromAdmin: the same requirement, for the same reason.
- Admin.AdminDashboard.DemoteUser: the same requirement, because it calls the store's demote.
- Predictions.InsertAllNewestFirst: requires the starting history to hold at most 20 entries. A longer list read from storage is cut only at the next insertion.
- Predictions.HandlePrediction: one clock reading serves both the rate check and the prediction's timestamp.
- The `init` of the admin dashboard, which checks `isAdmin` before loading, is not modelled separately from the handlers.
