# Tempbox mailbox client in Dafny

This project models the core of Tempbox. Tempbox is a client for a
disposable-mailbox web service. The model covers three parts:

- **The session state machine of `TempEmailClient`.** The client's
  fields `domain`, `account`, `token`, `current_password` and the
  session's `Authorization` header form one immutable `ClientState`
  value. `reset_state`, `get_domains`, `authenticate_account` and
  `create_account` are pure transitions. `reset_state` maps a state to
  the next one. The other three take the provider's answers as
  parameters (`DomainsReply`, `TokenReply`, a `registered` flag) and
  return their result together with the state they leave behind
  (`Step`). The answers of `random.choice` are a parameter too: a
  function `draw` from position to pick.
- **The message helpers.** These cover id normalisation in
  `get_messages`, the guards and id clean-up of `get_message_content`
  and `delete_message`, and the `search_messages` filter. They also
  cover the table rows of `display_messages` and the polling decision of
  `wait_for_new_messages`. The polling decision is a function over a
  finite sequence of listings: one baseline listing, then one listing
  per check.
- **The account list of `Storage`.** It is modelled in memory as a
  sequence of `{email, password}` records.

Modules: `Options` (Python's `None`), `Text` (string helpers:
`split('/')[-1]`, `lower()`, `in`, slicing), `Seqs` (order-preserving
filter), `Session`, `Messages`, `Polling`, `Storage`, and `Scenarios`
(concrete runs).

Some behaviours of the code differ from how the client is meant to
behave. The model follows the code:

- `authenticate_account` reports success when the token body has no
  token. It then sets the header `"Bearer None"`
  (`Session.AuthenticateWithoutToken`).
- `create_account` fails when the token body has no token, but it keeps
  `current_password` set. Its exception path does clear the password.
- The listing's fallback to the raw `id` field takes that field verbatim.
  So a normalised id is guaranteed to be '/'-free only when it comes from
  `@id`. A raw `id` keeps any '/' it contains
  (`Messages.ListedIdsArePlain` states the condition).
- `get_message_content` checks for an empty id before it cleans up the
  id. An id ending in '/' therefore requests the empty id
  (`Messages.ContentOfTrailingSlash`).
- The subject cell shows the subject unchanged when it is at most 30
  characters long. It also shows it unchanged when the subject is 33
  characters long and already ends in `...`.

## Model

| member | source | states |
|---|---|---|
| Session.ResetState | email_client.py:23-28 | The result is signed out: no account, token, password or header. The domain is kept. Resetting a signed-out state changes nothing, so reset is idempotent. Every result satisfies the session invariant. |
| Session.GetDomains | email_client.py:30-42 | A list is returned exactly when the request succeeds with a non-empty list. The returned list is the provider's list, and its first domain is cached. On an empty list or an error the result is `None` and the state is unchanged. Only `domain` ever changes. |
| Session.GenerateRandomUsername | email_client.py:44-47 | The generated name has exactly the requested length, and every character is in `a`–`z`. |
| Session.EveryWordCanBeDrawn | email_client.py:44-47 | Every lower-case word of the requested length can be produced by some sequence of draws. |
| Session.AuthenticateAccount | email_client.py:49-77 | Success happens exactly when the token exchange answers. Then the account is `{address: email, password}`, `current_password` is the password, `token` is the returned token and the header is `"Bearer " + token`. On failure the state equals `reset_state` of the input. The domain is kept, and the invariant holds. |
| Session.AuthenticateWithoutToken | email_client.py:58-73 | A token body without a token still yields success. No usable token is stored, and the header is `"Bearer None"`. |
| Session.CreateAccount | email_client.py:79-137 | The domain is the cached one, or else the one `get_domains` fetches. The result is true exactly when a non-empty domain exists, registration succeeds and the token body carries a non-empty token. With no domain, or after a registration or token-exchange error, the state is the reset state. A missing token leaves account and header unset but keeps `current_password` at the chosen password. On success the account is `username@domain` with the chosen password, the stored token is the one the provider returned, and the header is `"Bearer "` followed by that token. On failure there is no account and no header. The invariant always holds. |
| Session.DefaultAddressShape | email_client.py:88-95 | When no user name is given, a successful account's address is 10 lower-case letters, then `@`, then the domain. Its local part is those 10 letters. |
| Session.LocalPartOfAddress | email_client.py:95 | The user name can be read back from `username@domain` when it has no `@`. |
| Session.RunKeepsWellFormed | email_client.py:23-137 | Any series of resets, domain fetches, authentications and account creations preserves the session invariant. A header is present exactly when an account is stored, and it carries the stored token. A usable (non-empty) token is never held without a stored account. The stored account's password is `current_password`. |
| Session.ReachableWellFormed | email_client.py:15-21 | Every state reachable from a freshly constructed client satisfies the session invariant. There is a header exactly when there is an account, and the header carries the stored token. There is never a usable token without an account. An account's password is `current_password`. |
| Session.SignInForgetsPreviousSession | email_client.py:49-81 | The outcomes of `authenticate_account` and `create_account` depend on the earlier state only through the cached domain. |
| Text.LastSegment | email_client.py:153 | `split('/')[-1]` is a '/'-free suffix of the input. It starts at the beginning of the input or right after a '/'. |
| Text.LastSegmentUnique | email_client.py:153 | The three properties above determine the last segment uniquely. |
| Text.LastSegmentOfPath | email_client.py:153 | Splitting `prefix + "/" + segment` returns `segment`. |
| Messages.CanonicalId | email_client.py:151-156 | When `@id` is present and does not end in '/', the id is its non-empty, '/'-free last segment. Otherwise the id is the raw `id`, or `''`. |
| Messages.CanonicalIdOfPath | email_client.py:153-156 | When `@id` is `prefix/segment` with a non-empty, '/'-free segment, the id is that segment, whatever the raw `id` field holds. |
| Messages.GetMessages | email_client.py:139-161 | A listing is returned exactly when there is a token and the request succeeds. It has the provider's records in order. Each record's `id` is replaced by the canonical id, and every other field is kept. |
| Messages.GetMessagesIdempotent | email_client.py:151-156 | Normalising an already normalised listing changes nothing. |
| Messages.ListedIdsArePlain | email_client.py:151-156 | When every record has a usable `@id`, no listed id is empty or contains '/'. |
| Messages.ContentId | email_client.py:192-194 | The cleaned-up id is a '/'-free suffix of the given id. An id without '/' is kept unchanged. Otherwise the result starts right after a '/'. |
| Messages.ContentIdMatchesListing | email_client.py:192-194 | Cleaning up a record's `@id` gives its canonical listing id. Cleaning up the canonical id leaves it unchanged. |
| Messages.GetMessageContent | email_client.py:185-201 | No request is sent exactly when there is no token or the id is empty. Otherwise the request uses the id itself when it has no '/'. When it has one, the request uses the '/'-free suffix that starts right after a '/', which is `split('/')[-1]` by `Text.LastSegmentUnique`. The provider's reply is returned. |
| Messages.ContentOfTrailingSlash | email_client.py:187-194 | An id ending in '/' passes the emptiness check and requests the empty id. |
| Messages.DeleteMessage | email_client.py:203-215 | No request is sent exactly when there is no token. Otherwise the id is used as given, and the result is the provider's acceptance. |
| Messages.SearchMessages | email_client.py:217-226 | With no listing the result is `[]`. Otherwise the result holds exactly the listed messages whose lower-cased subject or sender contains the lower-cased query. They keep listing order and their multiplicities. |
| Messages.SearchEmptyQuery | email_client.py:217-226 | An empty query returns the whole listing. |
| Messages.SearchIgnoresQueryCase | email_client.py:223-226 | Searching for a query and for its lower-cased form give the same result. |
| Messages.SubjectCell | email_client.py:178 | The cell has at most 33 characters. A longer subject shows its first 30 characters followed by `...`. The cell equals the subject exactly when the subject has at most 30 characters, or has 33 and already ends in `...`. An absent subject shows `N/A`. |
| Messages.RowOf | email_client.py:175-181 | The id cell is a prefix of the id of at most 8 characters. It is exactly 8 characters when the id is that long, and the whole id otherwise. The From cell is the sender address, or `N/A` when there is none. The subject cell is as above. The Received At cell is `createdAt`, or `N/A` when there is none. The attachments cell is `Yes` exactly when the attachment list is non-empty, and `No` otherwise. |
| Messages.DisplayRows | email_client.py:163-183 | There are no rows without a listing. Otherwise there is one row per message, in listing order, built from the normalised record. |
| Polling.PolledIds | email_client.py:282-283 | A failed or refused listing contributes no ids. |
| Polling.PolledIdsAreCanonical | email_client.py:282-283 | The ids of a successful listing are exactly the canonical ids of its records. |
| Polling.PolledIdsOfListing | email_client.py:275-276 | These ids are the `id` fields of the records `get_messages` returns. |
| Polling.WaitOnIds | email_client.py:280-293 | The loop stops after the first poll whose ids are not all in the baseline, and reports exactly the new ids. Every earlier poll added none. It times out after exactly `max_checks` polls (none if that is not positive) exactly when no poll adds an id. |
| Polling.WaitStopsAtFirstNewPoll | email_client.py:285-289 | When poll `k` is the first poll with a new id, the loop ends there, whatever later polls show. |
| Polling.WaitForNewMessages | email_client.py:269-293 | Without a token nothing is polled. It polls at most `max_checks` times. When new mail is reported after poll `k`, the reported ids are exactly poll `k`'s ids minus the ids of the first listing, and no earlier poll showed an id outside that baseline. With a token, the wait times out exactly when no poll shows an id outside the baseline. It then made exactly `max_checks` polls, or none when that is not positive. |
| Storage.LoadAccounts | storage.py:9-16 | A parsed file yields its list. A missing or unreadable file yields `[]`. |
| Storage.SaveAccount | storage.py:18-22 | Exactly one record is appended at the end. Earlier records are unchanged, and duplicates are kept. |
| Storage.RemoveAccount | storage.py:29-31 | No record with the email remains. Every other record is kept once per occurrence, in its original order. |
| Storage.RemoveAbsentAndTwice | storage.py:29-31 | Removing an absent email changes nothing. Removing twice is the same as removing once. |
| Storage.RemoveAfterSave | storage.py:18-31 | Removing an email undoes saving it. Saving a different email commutes with the removal. |
| Storage.ChangesOnlyKeepKnownRecords | storage.py:18-31 | After any saves and removals, `get_accounts` holds only records that were loaded or saved. |
| Seqs.FilterSpec | storage.py:31 | The list comprehension keeps exactly the elements satisfying the condition. Each keeps its multiplicity, and they stay in their original order. |
| Scenarios.CreateThenListEmpty | email_client.py:79-158 | Creating `abc1234567` with provider domain `example.com` yields `abc1234567@example.com` and the header `Bearer tok`. The new mailbox then lists as `[]`, not as a failure. |
| Scenarios.WaitSeesNewMessage | email_client.py:280-289 | The baseline is {A, B}. The first poll shows {A, B} and the second {A, B, C}. The wait then stops after two polls and reports exactly {C}. |
| Scenarios.WaitSeesListedMessage | email_client.py:269-289 | The same run holds with listings of records whose `@id` paths end in A, B and C. |
| Scenarios.WaitTimesOut | email_client.py:280-293 | When every poll shows the baseline again, the wait times out after exactly `max_checks` polls. |

## Left out

- HTTP through `requests`, JSON decoding, `print` and `time.sleep` are not modelled. Every provider answer is a parameter, and a poll is one listing. The sleep interval has no observable effect in the model.
- `random.choice` is a parameter `draw: nat -> nat`: character `i` is letter `draw(i) % 26`.
- `display_message_content` (html2text conversion and printing) and `save_message_to_file` (timestamped file write) are not modelled. They are I/O and a foreign library.
- `PrettyTable` rendering is not modelled. Only the cell values of each row are.
- gui_app.py and main.py (tkinter widgets, the refresh thread, clipboard, the interactive menu) are not modelled. They are UI and concurrency.
- Storage.SaveAccount: the rewrite of `tempbox_accounts.json` after each change is not modelled. Only the in-memory list is.
- Storage.LoadAccounts: a file that parses to something other than a list is not modelled.
- `Storage.get_accounts` is the identity on the in-memory list (`Storage.GetAccounts`). It has no contract of its own.
- Messages.SearchMessages: lower-casing covers the ASCII letters only. Python's `str.lower` also folds other scripts.
- JSON values that are `null` or of the wrong type, and missing keys that the code indexes directly, are not modelled. Each field is either absent or a string (or a list of attachments), and absence follows the code's `.get` fallback. This leaves out the Python exceptions the code would raise on such input: a `null` `@id` or `id` (listing), a `null` subject (the table's subject cell), a `null` `from` (the table's From cell and the search), and a stored account record without `email` (`remove_account`).
- Messages.GetMessageContent: a `None` message id is not modelled. The id is a string.
- Session.GetDomains: an entry without a `domain` key (a `KeyError`) is not modelled.
- Polling.WaitForNewMessages: the extra `display_messages` listing after new mail arrives is not modelled. The model requires one listing per possible check (`max_checks <= |polls|`).
- A provider token that is not a string is not modelled.
