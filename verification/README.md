# Portfolio site core, modelled in Dafny

This project models the logic of a React portfolio site. It covers seven parts.

- **Portfolio assistant** (`Chatbot.jsx`): a first-match keyword lookup over its response table.
- **Coin assistant** (`CoinChatbot.jsx`):
  - keyword scoring over its response table;
  - an override for short questions about buying or about wallets;
  - the two-step send of both chat widgets.
- **Demo wallet** (`Wallet.jsx`):
  - the VND / USDVN balances and the send and swap handlers;
  - the swap-direction toggle and the two currency selects;
  - wallet connect and disconnect.
- **Blog admin** (`AdminBlogPosts.jsx`):
  - the slug derived from a new post's title;
  - save (update in place, or append under a fresh id), edit, delete and search;
  - the two ways tags are shown.
- **Project admin** (`AdminProjects.jsx`): the same operations for projects.
- **User admin** (`AdminUsers.jsx`): save, a delete that refuses the built-in administrator, and search.
- **Portfolio section** (`Portfolio.jsx`): the category filter over its six fixed projects.

Everything is modelled as pure functions over immutable datatypes.

- **Clocks:** `Date.now()` and `new Date()` become parameters (`now`, `today`, `newId`).
- **Amounts:** wallet amounts are exact `real`s, and an empty form field is `None`.
- **Case:** JavaScript's `toLowerCase` is modelled on ASCII, Latin-1 and the Vietnamese letters (`Text.LowerChar`).
- **White space:** `trim` and the regular expression class `\s` use ECMAScript's white-space and line-terminator set (`Text.IsSpace`).
- **`includes`:** modelled as `Text.Contains`.
- **`split`:** modelled as `Text.Split`, which keeps empty pieces.
- **`length`:** counts UTF-16 code units (`Text.Utf16Length`).

Shared building blocks:

- `Seqs`: subsequence and `filter`.
- `Records`: by-id `map`, `filter` and append over records with unique ids.
- `Search`: the admin search box.
- `TagLists`: tags stored either as a list or as comma-separated text.
- `Conversation`: the message list of both chat widgets. Each widget's send is `Conversation.Submit` then `Conversation.Reply` with that widget's own `Respond`.
- `CoinScores` and `CoinScenarios`: a worked short question for the coin assistant. `CoinScores` holds one small lemma per key phrase; `CoinScenarios` puts them together.

## Model

| member | source | states |
|---|---|---|
| Chatbot.FirstMatch | src/components/Chatbot.jsx:57-61 | the loop finds an entry whose key is not `default` and occurs in the message, with no earlier such entry; it finds none exactly when no entry triggers |
| Chatbot.GetResponse | src/components/Chatbot.jsx:55-63 | the answer is always one of the table's texts; it is the first triggering entry's text, and the `default` text when nothing triggers (keys unique) |
| Chatbot.DefaultNeverMatched | src/components/Chatbot.jsx:58 | the `default` entry never triggers, even when the message contains the word "default" |
| Chatbot.CaseInsensitive | src/components/Chatbot.jsx:56 | two messages with the same lower-cased form get the same answer |
| Chatbot.PortfolioTableWellFormed | src/components/Chatbot.jsx:46-53 | the widget's table has a `default` entry and unique keys |
| Chatbot.Respond | src/components/Chatbot.jsx:46-63 | the widget's answer is always one of its response texts |
| Chatbot.RespondFirstTrigger | src/components/Chatbot.jsx:57-60 | a message whose first triggering key is entry k gets entry k's text |
| Chatbot.RespondNoTrigger | src/components/Chatbot.jsx:62 | a message triggering no key gets the fallback text |
| Chatbot.ExperienceQuestion | src/components/Chatbot.jsx:47 | "Cho tôi biết về kinh nghiệm của anh" gets the experience answer, despite the capital letter |
| Chatbot.GreetingFallsBack | src/components/Chatbot.jsx:52 | "xin chào" names no topic and gets the fallback text |
| Chatbot.ProjectsBeforeSkills | src/components/Chatbot.jsx:48-49 | of two topics in one message, the one declared first ("dự án") answers |
| Conversation.Submit | src/components/CoinChatbot.jsx:96-108 | a blank input is ignored and changes nothing; otherwise the user's message is appended, the input cleared, the typing flag raised and the question captured |
| Conversation.Reply | src/components/CoinChatbot.jsx:110-120 | the reply appends exactly one bot message holding the given answer, stamped one after the clock, keeps the rest, and lowers the typing flag. Each widget's timer callback is this step applied to its own `Respond` of the captured question |
| Conversation.Exchange | src/components/CoinChatbot.jsx:96-121 | a non-blank submission and its reply append exactly the user's message and then the bot's answer to that same text, for any responder. The portfolio widget's handler at src/components/Chatbot.jsx:64-88 is the same two steps with `Chatbot.Respond` |
| CoinChatbot.Score | src/components/CoinChatbot.jsx:72-78 | a key's score is at most its word count; it is 0 exactly when no word occurs in the message, and the word count exactly when all do |
| CoinChatbot.Scan | src/components/CoinChatbot.jsx:69-84 | after the loop, no scored key beats the lead's score. A leader exists exactly when that score is positive. The leader scores strictly more than every earlier key, because only a strictly higher score takes over |
| CoinChatbot.Best | src/components/CoinChatbot.jsx:66-84 | the loop ends with no leader exactly when every scored key scores 0, and otherwise with the best entry and its score |
| CoinChatbot.BestUnique | src/components/CoinChatbot.jsx:80-83 | at most one entry is the best: the first one reaching the top score |
| CoinChatbot.BestFound | src/components/CoinChatbot.jsx:66-84 | when an entry is the best, the loop ends with that entry and its score |
| CoinChatbot.Decide | src/components/CoinChatbot.jsx:86-93 | for each branch, both directions: the purchase answer, the wallet answer, the best entry, or the default |
| CoinChatbot.GetResponse | src/components/CoinChatbot.jsx:64-94 | the answer is one of the table's texts. It is the default when every key scores 0. It is the purchase entry's or the wallet entry's text when `Decide` chose that branch. Otherwise it is the best entry's text, whether the override guard failed or held with neither keyword pair present |
| CoinChatbot.LongMessageScoresOnly | src/components/CoinChatbot.jsx:86 | a message of 15 or more UTF-16 units is never overridden: the answer is the best entry's, or the default |
| CoinChatbot.CoinTableWellFormed | src/components/CoinChatbot.jsx:48-62 | the coin table has unique keys, a `default` entry, and the two entries the override answers with |
| CoinChatbot.Respond | src/components/CoinChatbot.jsx:48-94 | the coin widget's answer is always one of its response texts |
| CoinChatbot.ScoreCount | src/components/CoinChatbot.jsx:74-78 | a key's score is the number of its words that occur in the message |
| CoinScenarios.ExampleBest | src/components/CoinChatbot.jsx:49 | for "gì ví usdvnc  " the first entry, "usdvnc là gì", scores 2, as high as any |
| CoinScenarios.ExampleOverrides | src/components/CoinChatbot.jsx:86 | that message is under 15 units and its best score, 2, is below half of its 5 pieces |
| CoinScenarios.ShortWalletOverride | src/components/CoinChatbot.jsx:86-89 | the best-scoring entry for that message is entry 0, yet the override takes the wallet branch. `CoinChatbot.GetResponse`'s contract turns that branch into the wallet entry's text |
| Wallet.InitialWalletFacts | src/components/sections/Wallet.jsx:12-25 | the demo wallet is worth 3,000,000 VND, holds five transactions and is not connected |
| Wallet.WithBalance | src/components/sections/Wallet.jsx:312-315 | setting one currency's balance leaves the other unchanged |
| Wallet.Prefix | src/components/sections/Wallet.jsx:305 | `substring(0, 10)`: the first ten characters of the address, or all of it when shorter, as a prefix |
| Wallet.SendDescription | src/components/sections/Wallet.jsx:305 | the send record's description is "Gửi đến ", the address's first ten characters, "... ", and then the memo in parentheses when there is one, with nothing after it when there is none |
| Wallet.SendDescriptionTruncates | src/components/sections/Wallet.jsx:305 | addresses that agree on their first ten characters give the same description |
| Wallet.Send | src/components/sections/Wallet.jsx:290-321 | the missing-field and invalid-amount errors, each in both directions. An error changes nothing. Otherwise the chosen balance drops by the amount, the other is unchanged, the worth drops by the amount's value, one send record is prepended with the amount, currency, `SendDescription` of the address and memo, clock and date, and the form resets. Non-negative balances stay so |
| Wallet.Convert | src/components/sections/Wallet.jsx:335-341 | a pair converts exactly when the currencies differ, and the converted amount has the same value at 1 USDVN = 1000 VND |
| Wallet.Swap | src/components/sections/Wallet.jsx:323-366 | errors in their order: missing amount (its own error, with the swap's toast text rather than the send's), invalid amount, then unsupported pair. An error changes nothing. Otherwise one balance is debited and the other credited, the worth is preserved, one swap record is prepended, with the description "Swap X sang Y" naming the two currencies, and the form resets. Non-negative balances stay so |
| Wallet.Toggle | src/components/sections/Wallet.jsx:230 | the arrow button exchanges the two currencies and the two amounts |
| Wallet.ToggleTwice | src/components/sections/Wallet.jsx:230 | pressing the arrow twice restores the form |
| Wallet.ToggleKeepsPairSupport | src/components/sections/Wallet.jsx:230 | the toggled form names a supported pair exactly when the form did |
| Wallet.SelectFrom | src/components/sections/Wallet.jsx:221 | choosing the source currency sets it and clears the target amount, nothing else |
| Wallet.SelectTo | src/components/sections/Wallet.jsx:237 | choosing the target currency sets it and clears the source amount, nothing else |
| Wallet.SwapAfterSelectTo | src/components/sections/Wallet.jsx:237 | after choosing the target currency, a swap is refused for its missing amount, with the toast "Vui lòng nhập số tiền muốn swap." of line 326 |
| Wallet.SameCurrencyRefused | src/components/sections/Wallet.jsx:221 | choosing the target currency as the source makes the pair unsupported. With a valid amount, the swap is refused for that reason and leaves the wallet unchanged |
| Wallet.SwapThereAndBack | src/components/sections/Wallet.jsx:336-337 | swapping VND to USDVN and the proceeds back restores both balances |
| Wallet.Connect | src/components/sections/Wallet.jsx:280-283 | connecting sets an address and keeps the balances and the history |
| Wallet.Disconnect | src/components/sections/Wallet.jsx:285-288 | disconnecting clears the address and keeps the balances and the history |
| Wallet.ConnectDisconnect | src/components/sections/Wallet.jsx:280-288 | connecting a disconnected wallet and then disconnecting it restores it exactly; connecting twice is connecting once, and so is disconnecting |
| Wallet.Step | src/components/sections/Wallet.jsx:290-366 | one send or swap keeps non-negative balances, keeps the old history as a tail and leaves the connection alone; a swap preserves the worth |
| Wallet.Run | src/components/sections/Wallet.jsx:290-366 | any sequence of sends and swaps keeps non-negative balances, keeps the old history as a tail and leaves the connection alone; swaps alone preserve the worth |
| Text.Lower | src/components/admin/AdminBlogPosts.jsx:97 | lower-casing keeps the length and maps each character on its own |
| Text.LowerIdempotent | src/components/admin/AdminBlogPosts.jsx:97 | lower-casing twice is lower-casing once |
| Text.ContainsIff | src/components/admin/AdminBlogPosts.jsx:97 | `includes` holds exactly when the needle occurs at some position |
| Text.ContainsTrans | src/components/admin/AdminBlogPosts.jsx:97 | an infix of an infix is an infix |
| Text.Split | src/components/admin/AdminBlogPosts.jsx:57 | a split has at least one piece and no piece holds the separator |
| Text.SplitJoin | src/components/admin/AdminBlogPosts.jsx:57 | splitting the join of separator-free pieces gives back the pieces |
| Text.TrimIff | src/components/admin/AdminBlogPosts.jsx:57 | a trimmed string has no white space at either end, and trimming it changes nothing |
| Seqs.Filter | src/components/admin/AdminBlogPosts.jsx:85 | `filter` keeps exactly the elements satisfying the test, in order, as a subsequence |
| Seqs.FilterCounts | src/components/admin/AdminBlogPosts.jsx:85 | `filter` keeps every copy of each element it selects and no copy of the others |
| Records.ReplaceWhere | src/components/admin/AdminBlogPosts.jsx:57 | the by-id `map` keeps the length and replaces exactly the records with the id |
| Records.ReplaceUnique | src/components/admin/AdminBlogPosts.jsx:57 | with unique ids, the by-id `map` is an update at the one matching position, and keeps ids unique |
| Records.RemoveWhere | src/components/admin/AdminBlogPosts.jsx:85 | the by-id `filter` leaves no record with the id, keeps every other record in order, and changes nothing for an absent id |
| Records.RemoveUnique | src/components/admin/AdminBlogPosts.jsx:85 | with unique ids, deleting a present id removes exactly that one record |
| Records.AppendFresh | src/components/admin/AdminBlogPosts.jsx:60 | appending a record under a fresh id keeps ids unique |
| Search.Search | src/components/admin/AdminBlogPosts.jsx:96-101 | the search keeps, in order, exactly the records one of whose fields, lower-cased, includes the lower-cased term |
| Search.SearchEmptyTerm | src/components/admin/AdminBlogPosts.jsx:96-101 | an empty search lists every record |
| Search.SearchIgnoresCase | src/components/admin/AdminBlogPosts.jsx:96-101 | the term's case does not matter |
| Search.SearchNarrows | src/components/admin/AdminBlogPosts.jsx:96-101 | a longer term that includes a shorter one finds a subsequence of what the shorter finds |
| Slugs.CollapseSpaces | src/components/admin/AdminBlogPosts.jsx:49 | `replace(/\s+/g, '-')` leaves no white space: every character is a hyphen or comes from the input. Where the hyphens go is stated by `Slugs.CollapseRun` and `Slugs.CollapseWords` |
| Slugs.CollapseKeepsWords | src/components/admin/AdminBlogPosts.jsx:49 | collapsing white space keeps the word characters, in order |
| Slugs.CollapseWordPrefix | src/components/admin/AdminBlogPosts.jsx:49 | text free of white space at the front passes through unchanged |
| Slugs.CollapseRun | src/components/admin/AdminBlogPosts.jsx:49 | a whole run of white space is replaced by a single hyphen, or by nothing when a run is already open |
| Slugs.CollapseWords | src/components/admin/AdminBlogPosts.jsx:49 | two space-free words around any non-empty run of white space become the words joined by exactly one hyphen, in place ("hello \t world" gives "hello-world") |
| Slugs.RemoveNonWord | src/components/admin/AdminBlogPosts.jsx:49 | `replace(/[^\w-]+/g, '')` keeps only word characters and hyphens, as a subsequence, keeping every word character |
| Slugs.Slug | src/components/admin/AdminBlogPosts.jsx:49 | a slug holds only ASCII letters, digits, `_` and `-`, none of them upper case |
| Slugs.SlugKeepsWords | src/components/admin/AdminBlogPosts.jsx:49 | a slug's word characters are exactly those of the lower-cased title, in order |
| Slugs.SlugIdempotent | src/components/admin/AdminBlogPosts.jsx:49 | the slug of a slug is the slug itself |
| TagLists.ParseTags | src/components/admin/AdminBlogPosts.jsx:57 | saving gives one tag per comma-separated part, at least one: tag i is piece i of the comma split, trimmed, and so holds no comma |
| TagLists.DisplayTags | src/components/admin/AdminBlogPosts.jsx:150-152 | the chips are the trimmed pieces in order with the empty ones dropped: each non-empty trimmed piece appears as often as it occurs (a repeated tag keeps every copy), and no empty one appears, for tags stored as a list or as text |
| TagLists.ViewTags | src/components/admin/AdminBlogPosts.jsx:239-242 | the detail view's tag line is the chips shown, joined by `', '` (the edit text of the chip list), so it is empty when there is no chip and includes every chip |
| TagLists.ViewTagsRoundTrip | src/components/admin/AdminBlogPosts.jsx:239-242 | the tag line is the chips joined by `', '`: read back as tag text it shows the same chips, and split at the commas and trimmed it gives the chip list, whenever there is a chip and the tags hold no comma |
| TagLists.CleanListShown | src/components/admin/AdminBlogPosts.jsx:239-242 | for a list of non-empty trimmed tags, the chips are the list and the view line is the edit text |
| TagLists.EditSaveRoundTrip | src/components/admin/AdminBlogPosts.jsx:74 | joining a non-empty, trimmed, comma-free tag list for editing and splitting it on save gives back the list |
| TagLists.EditSaveEmpty | src/components/admin/AdminBlogPosts.jsx:74 | an empty tag list comes back from the edit form as a single empty tag |
| TagLists.DisplayBothStorages | src/components/admin/AdminBlogPosts.jsx:150 | a comma-free tag list shows the same chips as its `', '`-joined text |
| BlogPosts.BlankForm | src/components/admin/AdminBlogPosts.jsx:21-30 | a blank form has no id and today's date |
| BlogPosts.InputChange | src/components/admin/AdminBlogPosts.jsx:45-52 | the named field takes the value. A new post's title also sets the slug to the title's slug. Every other field and the id are unchanged |
| BlogPosts.EditedTitleKeepsSlug | src/components/admin/AdminBlogPosts.jsx:48 | once a post has an id, editing its title leaves the slug alone |
| BlogPosts.Saved | src/components/admin/AdminBlogPosts.jsx:57 | a saved post has the form's fields, the given id, and the parsed tag list |
| BlogPosts.Submit | src/components/admin/AdminBlogPosts.jsx:54-65 | a form with an id replaces the matching posts in place and keeps every id; one without appends a post under the new id |
| BlogPosts.SubmitKeepsUnique | src/components/admin/AdminBlogPosts.jsx:56-62 | saving keeps post ids unique, given a fresh id for a new post |
| BlogPosts.EditForm | src/components/admin/AdminBlogPosts.jsx:74 | the edit form carries the post's id, its tags as edit text, and every other field of the post unchanged (`{...post}`) |
| BlogPosts.EditSaveUnchanged | src/components/admin/AdminBlogPosts.jsx:57-74 | opening a post with clean tags for editing and saving it unchanged leaves the list as it was |
| BlogPosts.EditSaveSameChips | src/components/admin/AdminBlogPosts.jsx:74 | saving a post whose tags were stored as text stores the parsed list and shows the same chips |
| BlogPosts.Delete | src/components/admin/AdminBlogPosts.jsx:84-89 | delete leaves no post with the id and keeps every other post in order |
| BlogPosts.DeleteOne | src/components/admin/AdminBlogPosts.jsx:85 | with unique ids, deleting a present post removes exactly that post |
| BlogPosts.SearchPosts | src/components/admin/AdminBlogPosts.jsx:96-101 | the search keeps, in order, exactly the posts whose title, excerpt, tag text or category includes the term, ignoring case |
| BlogPosts.SearchAllWhenEmpty | src/components/admin/AdminBlogPosts.jsx:96-101 | an empty search lists every post |
| BlogPosts.SearchFindsTag | src/components/admin/AdminBlogPosts.jsx:99 | a post one of whose saved tags includes the term is found |
| Projects.Saved | src/components/admin/AdminProjects.jsx:51 | a saved project has the form's fields, the given id, and the parsed tag list |
| Projects.Submit | src/components/admin/AdminProjects.jsx:48-59 | a form with an id replaces the matching projects in place and keeps every id; one without appends a project under the new id |
| Projects.SubmitKeepsUnique | src/components/admin/AdminProjects.jsx:50-56 | saving keeps project ids unique, given a fresh id for a new project |
| Projects.EditForm | src/components/admin/AdminProjects.jsx:68 | the edit form carries the project's id, its tags as edit text, and every other field of the project unchanged (`{...project}`) |
| Projects.EditSaveUnchanged | src/components/admin/AdminProjects.jsx:51-68 | opening a project with clean tags for editing and saving it unchanged leaves the list as it was |
| Projects.EditSaveEmptyTags | src/components/admin/AdminProjects.jsx:142-144 | re-saving a project with no tags stores one empty tag, which the chips do not show |
| Projects.Delete | src/components/admin/AdminProjects.jsx:78-83 | delete leaves no project with the id, keeps the others in order, and changes nothing for an absent id |
| Projects.DeleteOne | src/components/admin/AdminProjects.jsx:79 | with unique ids, deleting a present project removes exactly that project |
| Projects.SearchProjects | src/components/admin/AdminProjects.jsx:90-94 | the search keeps, in order, exactly the projects whose title, description or tag text includes the term, ignoring case |
| Projects.SearchProperties | src/components/admin/AdminProjects.jsx:90-94 | an empty search lists every project, and a longer term finds a subsequence of what a shorter one finds |
| Users.BlankForm | src/components/admin/AdminUsers.jsx:19-25 | a blank form has no id, the role `user` and the current time |
| Users.Saved | src/components/admin/AdminUsers.jsx:51 | a new user has the form's fields, the new id and the current time |
| Users.Submit | src/components/admin/AdminUsers.jsx:45-56 | an update replaces the matching users with the form as it stands (creation time included) and keeps every id; an add appends a user under the new id created now |
| Users.EditForm | src/components/admin/AdminUsers.jsx:64-68 | `handleEdit` loads the user itself into the form: it carries the user's id and creation time, and the record it saves under that id and time is the user again |
| Users.EditSaveUnchanged | src/components/admin/AdminUsers.jsx:48-67 | opening a user for editing and saving it unchanged leaves the list as it was |
| Users.SubmitKeepsUnique | src/components/admin/AdminUsers.jsx:47-52 | saving keeps user ids unique, given a fresh id for a new user |
| Users.Delete | src/components/admin/AdminUsers.jsx:70-83 | deleting id `admin` is refused, with nothing changed, exactly while a user with that id is named `admin`; any other delete leaves no user with the id and keeps the rest in order |
| Users.AdminSurvivesDelete | src/components/admin/AdminUsers.jsx:72-78 | no delete removes the built-in administrator |
| Users.DeleteOne | src/components/admin/AdminUsers.jsx:79 | with unique ids, a delete that is not refused removes exactly that user |
| Users.SearchUsers | src/components/admin/AdminUsers.jsx:89-93 | the search keeps, in order, exactly the users whose user name, email or role includes the term, ignoring case |
| Users.SearchFindsRole | src/components/admin/AdminUsers.jsx:92 | searching "ADMIN" finds every user whose role is `admin` |
| Users.SearchIgnoresCase | src/components/admin/AdminUsers.jsx:89-93 | the term's case does not matter |
| Portfolio.FilterProjects | src/components/sections/Portfolio.jsx:80-82 | `all` shows every project; any other filter shows exactly the projects of that category, in order |
| Portfolio.UnknownCategoryEmpty | src/components/sections/Portfolio.jsx:80-82 | a category no project has shows nothing |
| Portfolio.CategoriesPartition | src/components/sections/Portfolio.jsx:80-82 | a listed project appears under a category filter exactly when it is its own category |
| Portfolio.WebProjects | src/components/sections/Portfolio.jsx:10-73 | the `web` filter shows projects 1, 3 and 6 |
| Portfolio.MobileProjects | src/components/sections/Portfolio.jsx:10-73 | the `mobile` filter shows projects 2 and 4 |
| Portfolio.DesignProjects | src/components/sections/Portfolio.jsx:10-73 | the `design` filter shows project 5 |

The coin assistant's override is easy to over-read, so its behaviour is spelled out here. The model follows the code.

- One could expect the message "mua usdvnc" to be answered through the short-question override.
- In the code, scoring alone already picks the purchase entry for that message. Its key "làm thế nào để mua usdvnc" scores 2, and the message has 2 pieces. The override needs a best score below half the pieces, so it does not apply.
- The override only changes the answer when the best-scoring entry is another one. `CoinScenarios.ShortWalletOverride` proves such a case.

## Left out

- **Not modelled:**
  - rendering, animation, scrolling, dialogs and toasts;
  - `localStorage` persistence and the seeded admin lists;
  - the scroll-progress bar.
- **Timers and randomness:**
  - The reply delay of both chat widgets (`setTimeout` with `Math.random()`) is not modelled.
  - The reply is modelled as a separate step, taking the clock as a parameter.
- **Clocks:** `Date.now()` and `new Date()` are parameters. So is the id of a new record. Freshness of the id is a precondition wherever uniqueness is stated.
- **Number parsing and formatting:**
  - `parseFloat` of the amount text, `NaN`, `toFixed` and `formatCurrency` are left out.
  - Amounts are given as already-parsed exact reals, or `None` for an empty field.
  - Floating-point rounding of `/ 1000` and `* 1000` is not modelled.
- **Swap previews:** `handleSwapAmountChange` (Wallet.jsx:368), which previews the converted amount while typing, is not modelled.
- **Balance checks:** the send and swap handlers check the balance against the rendered state but subtract from `prev`. The model has one state, so the two are the same.
- **Text of the description:** the send record's `substring(0, 10)` counts characters, not UTF-16 units.
- **Lower-casing:** `toLowerCase` is modelled for ASCII, Latin-1 and Vietnamese letters only. Other scripts are left unchanged, and the special cases (final sigma, the dotted I) are left out.
- **Undefined fields:** `post.tags || ''` and `post.category || ''` guard against fields that are absent. The model's records always have every field, so these guards always see a string.
- **Projects and users:** their `handleInputChange` (a plain field set) is left out.
- **Portfolio section:** only the filter is modelled, not the technology lists or links.
- Slugs.Slug: states the slug's character set and the word characters it keeps, in order. It does not state where the hyphens fall in the finished slug. `Slugs.CollapseWords` states it for the white-space step alone.
