# IdeaIncubator in Dafny

IdeaIncubator is an idea board. Signed-in users post ideas, tag them, vote them up or down and comment on them; the owner of an idea may edit or delete it. This project models its decision logic and states what each piece guarantees:

- **Idea store.** The Express handlers for ideas over a store of idea documents:
  - create, get by id, update, delete;
  - upvote and downvote;
  - comment;
  - the paginated listing.

  The store is a class holding a map from id to an `Idea` value plus the insertion order. Each handler is one method that returns the status and body it answers with. The authenticated user, the request fields and the clock are parameters. The vote toggle is a pair of functions over the two id lists (`Votes`), checked against the per-user transition table (neutral, upvoted, downvoted).
- **Idea document.** The Mongoose schema: required paths, defaults and timestamps. Also `findByIdAndUpdate` applying a body wholesale, and `save()` re-validating a loaded document.
- **User registry.** `register`, `login`, `getMe` and `logout` over a user table whose emails are unique. The bcrypt hash and the JWT signer are function-valued parameters. The table stores only a salt and a digest, never the plaintext.
- **Client forms.** Each form's `validate` becomes a function from the form data to the errors object; its handlers become methods of a class holding that page's React state:
  - signup, register, login and profile;
  - the idea form: its plain variant (client/src/components/forms/IdeaForm.js) and its Material variant (client/src/components/ideas/IdeaForm.js) run the same handler code line for line, two lines apart, so one class models both and the table cites the plain one;
  - the home page's search, tag filter, pager and the query string it sends.
- **JavaScript primitives** (`Text`, `Seqs`):
  - `trim` with the JavaScript whitespace class;
  - the unanchored e-mail pattern `\S+@\S+\.\S+`;
  - `parseInt` without a radix;
  - `join` and `split`;
  - `filter((x) => x !== v)`.

Modules: `Wrappers`, `Seqs`, `Text`, `Auth`, `IdeaModel`, `Votes`, `IdeaStore`, `Users`, `Forms`, `Signup`, `Register`, `Login`, `Profile`, `IdeaForm`, `Home`.

Behaviour of the code that the model keeps as written:

- Login answers "User not found" and "Invalid credentials", two distinct messages, not one shared message.
- A create request that fails schema validation is answered 500 by the catch block, not 400.
- `addComment` has no 404 branch: for a missing idea it pushes onto `null`, which throws, and the handler answers 500. It also does not check the comment text.
- `updateIdea` applies the request body wholesale, without validators. It can therefore set the vote lists, the creator or an empty title (`IdeaStore.PatchCanBreakExclusive`, `IdeaStore.PatchCanEmptyTitle`).
- `getIdeas` ignores `search` and `tags`. It keeps a negative page. A negative skip is refused by the store and answered 500.

## Model

| member | source | states |
|---|---|---|
| Seqs.Without | server/controllers/ideaController.js:102 | `filter((id) => id !== v)`: exactly the other elements remain; the result shrinks when `v` occurred |
| Seqs.WithoutAbsent | server/controllers/ideaController.js:106 | filtering an id that is not in the list leaves the list unchanged |
| Seqs.WithoutConcat | server/controllers/ideaController.js:102 | filtering distributes over concatenation, so the kept elements keep their relative order |
| Seqs.WithoutAppended | server/controllers/ideaController.js:105-106 | pushing `v` and then filtering `v` gives the filtered original |
| Seqs.WithoutAppendOther | server/controllers/ideaController.js:105-106 | pushing another id commutes with filtering `v` |
| Seqs.WithoutIdempotent | server/controllers/ideaController.js:102 | filtering twice by the same id is filtering once |
| Seqs.WithoutCommutes | server/controllers/ideaController.js:102 | filtering by two ids in either order gives the same list |
| Seqs.WithoutNoDup | client/src/components/forms/IdeaForm.js:33 | filtering keeps a duplicate-free list duplicate-free |
| Seqs.WithoutRemovesOne | server/controllers/ideaController.js:79 | in a duplicate-free list, filtering a present id removes exactly one element |
| Seqs.WithTag | client/src/components/forms/IdeaForm.js:25-27 | append unless present: the value is in the result, the old list is its prefix, it grows by at most one, and duplicate-freedom is kept |
| Seqs.WithTagThenWithout | client/src/components/forms/IdeaForm.js:25-33 | adding an absent value and then filtering it out gives the list back |
| Text.Trim | client/src/components/forms/IdeaForm.js:14-15 | `trim()`: the input with a run of leading and a run of trailing JavaScript whitespace cut off, leaving a string that neither starts nor ends with whitespace |
| Text.IsBlank | client/src/components/forms/IdeaForm.js:14-15 | `!s.trim()`: the trimmed string is empty; `Text.BlankIffAllSpace` shows this means every character is whitespace |
| Text.BlankIffAllSpace | client/src/components/forms/IdeaForm.js:14-15 | `!s.trim()` holds exactly when every character is whitespace |
| Text.TrimUnpadded | client/src/components/forms/IdeaForm.js:25 | a string without surrounding whitespace is its own trim |
| Text.MatchesEmail | client/src/pages/Signup.js:46 | `/\S+@\S+\.\S+/.test(s)`: somewhere in the string, a non-space character, then `@`, then one or more non-space characters, then `.`, then a non-space character; nothing anchors the match to either end |
| Text.EmailShape | client/src/pages/Signup.js:46 | a string the pattern accepts holds an `@` followed later by a `.` and has at least five characters |
| Text.EmailUnanchored | client/src/pages/Signup.js:46 | the pattern is unanchored: any prefix and suffix, spaces included, keep a match |
| Text.BlankNotEmail | client/src/pages/Register.js:48-50 | a blank string never matches the pattern |
| Text.EmailExample | client/src/pages/Signup.js:46 | "a@b.c" and " a@b.c " match; "a@b" does not |
| Text.NatToString | client/src/pages/Home.js:33 | `page.toString()`: at least one character and only decimal digits, which `Text.DigitsValueOfNatToString` reads back as the number |
| Text.DigitsValueOfNatToString | client/src/pages/Home.js:33 | the decimal digits of `n` denote `n` |
| Text.ParseUnsignedOfNatToString | server/controllers/ideaController.js:6 | the digit and radix steps of `parseInt` read back `n.toString()` as `n` |
| Text.ParseInt | server/controllers/ideaController.js:6-7 | `parseInt`: an all-whitespace (or empty) string is NaN; a string starting with a non-zero digit reads as the value of its leading decimal digits |
| Text.ParseIntOfNatToString | server/controllers/ideaController.js:6 | `parseInt(String(n)) === n` for every natural `n` |
| Text.Split | server/controllers/ideaController.js:181 | `split(",")` yields at least one piece |
| Text.Join | client/src/pages/Home.js:41 | `join(",")`: the parts in order with one separator between neighbours, and the empty string for no parts; `Text.SplitJoin` is its inverse |
| Text.SplitNoSep | server/controllers/ideaController.js:181 | a string without the separator splits into itself |
| Text.SplitAtSep | server/controllers/ideaController.js:181 | splitting cuts at the first separator |
| Text.SplitJoin | client/src/pages/Home.js:41 | splitting on "," undoes `join(",")` when no part holds a comma |
| IdeaModel.NewIdea | server/models/Idea.js:12-27 | a new document saves exactly when the title and the creator's username are present and non-empty, and a saved one has its required fields |
| IdeaModel.NewIdeaDefaults | server/models/Idea.js:28-40 | a created idea has empty vote and comment lists, the creator's id and name, the request's fields, no tags when none were sent, and equal createdAt and updatedAt |
| IdeaModel.ApplyPatch | server/controllers/ideaController.js:55 | `findByIdAndUpdate(body)`: each path the body holds overwrites the stored value, every other path is kept, createdAt is kept and updatedAt refreshed |
| IdeaModel.EmptyPatchKeepsIdea | server/controllers/ideaController.js:55 | an empty body changes nothing but updatedAt |
| IdeaModel.Summary | server/controllers/ideaController.js:15 | the listing projection carries over the id and each selected path unchanged: title, description, tags, username, createdAt, upvotes and downvotes |
| Votes.Upvote | server/controllers/ideaController.js:96-108 | a current upvoter leaves upvotes and downvotes are untouched; anyone else joins upvotes and leaves downvotes; every other user's membership of both lists is unchanged |
| Votes.Downvote | server/controllers/ideaController.js:123-135 | the mirror of upvote: a current downvoter leaves downvotes; anyone else joins downvotes and leaves upvotes; other users unchanged |
| Votes.Next | server/controllers/ideaController.js:98-111 | the per-user transition: a vote always changes the state; it returns to neutral exactly when it repeats the current vote, else it lands on the voted side |
| Votes.Cast | server/controllers/ideaController.js:91-142 | after either vote the voter is never in both lists |
| Votes.DownvoteMirrorsUpvote | server/controllers/ideaController.js:118-142 | downvote is upvote with the two lists exchanged |
| Votes.UpvoteWithdraws | server/controllers/ideaController.js:98-102 | an upvote by a current upvoter removes every copy of its id from upvotes and leaves downvotes untouched |
| Votes.UpvoteRecords | server/controllers/ideaController.js:104-106 | an upvote by anyone else appends its id once at the end of upvotes and removes it from downvotes |
| Votes.VoterInAtMostOne | server/controllers/ideaController.js:98-106 | after any vote the voter is in at most one list, whatever the lists held before |
| Votes.VoteKeepsOthers | server/controllers/ideaController.js:125-133 | a vote leaves every other user's entries, and their order, unchanged in both lists |
| Votes.VotePreservesExclusive | server/controllers/ideaController.js:125-133 | if no id was in both lists before a vote, none is after |
| Votes.VoteFollowsTable | server/controllers/ideaController.js:98-106 | on exclusive lists each vote moves the voter as the transition table says: repeat withdraws, opposite replaces, neutral records |
| Votes.VoteTwiceRestores | server/controllers/ideaController.js:125-133 | from neutral, two votes in the same direction restore both lists exactly |
| Votes.TwoVotersScenario | server/controllers/ideaController.js:91-142 | two upvotes on a fresh idea, then the first voter downvotes: one id is left in each list |
| IdeaStore.Save | server/models/Idea.js:13-27 | `save()` on a loaded document succeeds exactly when title and username are non-empty, and then only refreshes updatedAt |
| IdeaStore.WithComment | server/controllers/ideaController.js:150-153 | exactly one comment is appended at the end, with the author's name, the raw text and the time; votes, title and creator are kept |
| IdeaStore.WithBallot | server/controllers/ideaController.js:102-109 | the idea takes the new vote lists, and title, creator and comments are kept |
| IdeaStore.Summaries | server/controllers/ideaController.js:15 | one projection per id, in order |
| IdeaStore.IdSet | server/controllers/ideaController.js:10 | the set of ids occurring in the order |
| IdeaStore.DistinctCount | server/controllers/ideaController.js:10 | a duplicate-free order has as many distinct ids as entries, so `countDocuments` is its length |
| IdeaStore.OrDefault | server/controllers/ideaController.js:6-7 | `parseInt(q) \|\| d`: NaN and 0 fall back to `d`, anything else (negatives included) is kept |
| IdeaStore.CeilDiv | server/controllers/ideaController.js:20 | `Math.ceil(a / b)` bounds for positive and negative `b` |
| IdeaStore.Insert | server/controllers/ideaController.js:12 | inserting adds exactly one element to the multiset |
| IdeaStore.InsertNoneNewer | server/controllers/ideaController.js:12 | insertion keeps an upper bound on the newest createdAt |
| IdeaStore.InsertNewestFirst | server/controllers/ideaController.js:12 | insertion keeps a newest-first sequence newest-first |
| IdeaStore.SortNewestFirst | server/controllers/ideaController.js:12 | `sort({ createdAt: -1 })`: newest first and a permutation of the input |
| IdeaStore.Window | server/controllers/ideaController.js:13-14 | `skip(k).limit(n)`: at most `n` elements, exactly those from position `k`, empty past the end |
| IdeaStore.WindowIsSubMultiset | server/controllers/ideaController.js:13-14 | a window holds nothing the sequence does not |
| IdeaStore.FirstWindowIsNewest | server/controllers/ideaController.js:12-14 | the first window of a newest-first sequence leaves out nothing newer than what it shows |
| IdeaStore.PageNumber | server/controllers/ideaController.js:6 | the page read from the query is never 0 |
| IdeaStore.PageSize | server/controllers/ideaController.js:7 | the limit read from the query is never 0 |
| IdeaStore.QueryFallbacks | server/controllers/ideaController.js:6-7 | a missing or zero page reads as 1 and such a limit as 10 |
| IdeaStore.QueryUnparsableFallbacks | server/controllers/ideaController.js:6-7 | an unparsable page reads as 1 and an empty limit as 10 |
| IdeaStore.QueryKeepsNegative | server/controllers/ideaController.js:6 | "-2" reads as page -2 |
| IdeaStore.QueryReadsLeadingNumber | server/controllers/ideaController.js:6 | " 3rd" reads as page 3 |
| IdeaStore.Paginate | server/controllers/ideaController.js:6-21 | fails exactly when `(page-1)*limit < 0`; otherwise currentPage is the page, the ideas are the `abs(limit)` entries at offset `(page-1)*limit` of the newest-first order (so at most `abs(limit)`, newest first, drawn from the listing), and totalPages is `CeilDiv(total, limit)`, whose bounds `IdeaStore.CeilDiv` states |
| IdeaStore.WindowNewestFirst | server/controllers/ideaController.js:12-14 | a window of a newest-first sequence is newest-first |
| IdeaStore.PaginateSize | server/controllers/ideaController.js:8-14 | a page past the end is empty; a page inside the listing is full unless it is the last |
| IdeaStore.AdjacentWindowsOrdered | server/controllers/ideaController.js:12-14 | of two adjacent windows of a newest-first list, nothing in the second is newer than anything in the first |
| IdeaStore.PageIsWindow | server/controllers/ideaController.js:8-14 | a page at a non-negative offset is answered, and holds the window of the newest-first order at that offset |
| IdeaStore.ConsecutivePagesOrdered | server/controllers/ideaController.js:8-14 | for a positive limit, nothing on page `p + 1` is newer than anything on page `p` |
| IdeaStore.PageOf | server/controllers/ideaController.js:8-20 | every listed idea is on some page between 1 and `totalPages` (the page is given) |
| IdeaStore.EveryIdeaOnSomePage | server/controllers/ideaController.js:8-20 | pages 1 to `totalPages` together cover the whole listing |
| IdeaStore.FirstPageNewest | server/controllers/ideaController.js:11-14 | page 1 holds the newest ideas of all |
| IdeaStore.PatchKeepsBallot | server/controllers/ideaController.js:55 | a body without vote paths leaves both vote lists unchanged |
| IdeaStore.PatchCanBreakExclusive | server/controllers/ideaController.js:55 | a body with the same id in both vote lists leaves that voter in both |
| IdeaStore.PatchCanEmptyTitle | server/controllers/ideaController.js:55 | a body with an empty title is stored, and every later save of that idea is refused |
| IdeaStore.TagFilter | server/controllers/ideaController.js:181 | `tags.split(",").map(trim)`: one trimmed entry per piece |
| IdeaStore.TrimAll | server/controllers/ideaController.js:181 | each piece trimmed, in order |
| IdeaStore.Store.constructor | server/controllers/ideaController.js:10 | an empty, valid store |
| IdeaStore.Store.Listing | server/controllers/ideaController.js:10-15 | one projection per stored idea, in insertion order: entry `k` is the summary of the `k`-th stored id, and every stored idea's summary is in the listing |
| IdeaStore.SummariesCover | server/controllers/ideaController.js:11-15 | every id's projection is among the projections of the ids |
| IdeaStore.Store.GetIdeas | server/controllers/ideaController.js:4-21 | the listing over the stored ideas: 500 exactly on a negative skip; otherwise the page is the window at offset `(page-1)*limit` of the stored ideas newest first, with its size bound and `totalPages = ceil(count/limit)` |
| IdeaStore.Store.PageHoldsStoredIdeas | server/controllers/ideaController.js:11-15 | every idea on a page is a stored idea, listed without comments and creator |
| IdeaStore.Store.Create | server/controllers/ideaController.js:28-43 | invalid: 500 and nothing stored; valid: 201 with the new idea under a fresh id appended to the order; vote exclusivity kept |
| IdeaStore.Store.GetById | server/controllers/ideaController.js:162-170 | malformed id 500 "Error fetching idea", absent 404 "Idea not found", else 200 with the idea |
| IdeaStore.Store.Update | server/controllers/ideaController.js:46-60 | malformed 500, absent 404, non-creator 403 "Not authorized" with nothing changed; creator: the body applied to that idea only; exclusivity kept when the body has no vote paths |
| IdeaStore.Store.Delete | server/controllers/ideaController.js:63-88 | malformed 500, absent 404, non-creator 403 with nothing changed; creator: exactly that idea leaves the store and the order, 200 "Idea deleted successfully" |
| IdeaStore.Store.Upvote | server/controllers/ideaController.js:91-115 | malformed 500, absent 404; otherwise only that idea changes, to the upvote toggle, message "Upvote removed" or "Upvoted successfully"; a save refused by validation answers 500; exclusivity kept |
| IdeaStore.Store.Downvote | server/controllers/ideaController.js:118-142 | the mirror of Upvote with "Downvote removed" or "Downvoted successfully" |
| IdeaStore.Store.AddComment | server/controllers/ideaController.js:145-160 | malformed or absent id 500 (no 404); otherwise one comment appended with the raw text and 201 "Comment added"; nothing else changes |
| Users.FindUser | server/controllers/userController.js:9 | `findOne({ email })`: none exactly when no user has the email; otherwise a stored user with that email |
| Users.FindUserFindsOwner | server/controllers/userController.js:27 | with unique emails, a stored user's email finds that user |
| Users.HashPassword | server/controllers/userController.js:12-13 | the digest keeps the salt and accepts the password it was made from |
| Users.GetMeAsWritten | server/controllers/userController.js:53-59 | as written: username and email are answered, `_id` is always missing |
| Users.GetMe | server/controllers/userController.js:53-59 | corrected: `_id`, username and email of the authenticated user |
| Users.GetMeLosesId | server/middleware/auth.js:13 | for every user the written handler loses the id the corrected one reports |
| Users.Registry.constructor | server/controllers/userController.js:6-21 | an empty table, with unique emails and ids |
| Users.Registry.Register | server/controllers/userController.js:6-21 | a known email: 400 "Email already in use" and nothing stored; else exactly one user appended, holding a salted digest rather than the password, 201; emails stay unique |
| Users.Registry.Login | server/controllers/userController.js:24-41 | unknown email 400 "User not found"; wrong password 400 "Invalid credentials"; a known email with a matching password always logs in, with the token signed over that user's id and name expiring one day later and a summary of id, name and email without the password |
| Users.Registry.Logout | server/controllers/userController.js:62-69 | 200 "Logged out successfully"; the table is not touched |
| Users.Registry.RegisterThenLogin | server/controllers/userController.js:6-41 | registering a new email and then logging in with the same email and password answers 201 and then a login for the new user's id, name and email |
| Forms.EmailRule | client/src/pages/Signup.js:44-48 | no error exactly when not missing and the pattern matches; "Email is required" when missing, else "Email is invalid" |
| Forms.PasswordRule | client/src/pages/Signup.js:50-54 | no error exactly when at least 6 characters; "Password is required" when empty, else the length message |
| Forms.ClearError | client/src/pages/Signup.js:28-34 | typing blanks only the edited field's message, only when it is set; the keys stay the same |
| Forms.NoErrors | client/src/pages/Signup.js:61 | `Object.keys(errors).length === 0`: the errors object has no key at all, so a key left with an empty message still counts as an error |
| Signup.SignupErrors | client/src/pages/Signup.js:37-62 | per field, when it has an error and which message: untrimmed username, email rule, password rule, confirmation mismatch |
| Signup.SignupValidIff | client/src/pages/Signup.js:60-61 | valid exactly when the username is non-empty, the email matches, the password has 6+ characters and the confirmation equals it |
| Signup.SignupUsernameUntrimmed | client/src/pages/Signup.js:40-42 | a username of one space passes |
| Signup.SignupPage.constructor | client/src/pages/Signup.js:11-18 | four empty fields and no errors |
| Signup.SignupPage.HandleChange | client/src/pages/Signup.js:21-35 | exactly the named field changes and only its error is cleared |
| Signup.SignupPage.Validate | client/src/pages/Signup.js:37-62 | errors replaced by the validator's; true exactly when there are none |
| Signup.SignupPage.HandleSubmit | client/src/pages/Signup.js:64-89 | `signup` receives username, email and password (never the confirmation) exactly when the form validates |
| Register.RegisterErrors | client/src/pages/Register.js:41-66 | username and email required when blank after trimming, pattern applied to the raw email, password and confirmation rules |
| Register.RegisterValidIff | client/src/pages/Register.js:64-65 | valid exactly when username and email are non-blank, the raw email matches, the password has 6+ characters and the confirmation equals it |
| Register.RegisterEmailPadded | client/src/pages/Register.js:48-52 | an email with surrounding spaces passes |
| Register.RegisterPage.constructor | client/src/pages/Register.js:24-31 | four empty fields and no errors |
| Register.RegisterPage.HandleChange | client/src/pages/Register.js:33-39 | exactly one field replaced; the errors are unchanged |
| Register.RegisterPage.Validate | client/src/pages/Register.js:41-66 | errors replaced by the validator's; true exactly when there are none |
| Register.RegisterPage.HandleSubmit | client/src/pages/Register.js:68-74 | `register` is called with the raw fields exactly when the form validates |
| Login.LoginErrors | client/src/pages/Login.js:35-50 | email rule on the untrimmed email; "Password is required" exactly when the password is empty; no length rule |
| Login.LoginValidIff | client/src/pages/Login.js:48-49 | valid exactly when the email matches and the password is non-empty |
| Login.LoginPage.constructor | client/src/pages/Login.js:11-16 | two empty fields and no errors |
| Login.LoginPage.HandleChange | client/src/pages/Login.js:19-33 | exactly the named field changes and only its error is cleared |
| Login.LoginPage.Validate | client/src/pages/Login.js:35-50 | errors replaced by the validator's; true exactly when there are none |
| Login.LoginPage.HandleSubmit | client/src/pages/Login.js:52-72 | `login` is attempted with email and password exactly when the form validates |
| Profile.FormFor | client/src/pages/Profile.js:22-30 | `user.username \|\| ""` and `user.email \|\| ""` |
| Profile.ProfileErrors | client/src/pages/Profile.js:61-76 | username required when empty; email rule on the untrimmed email |
| Profile.ProfileValidIff | client/src/pages/Profile.js:74-75 | valid exactly when the username is non-empty and the email matches |
| Profile.ProfilePage.constructor | client/src/pages/Profile.js:11-16 | not editing, empty fields, no errors |
| Profile.ProfilePage.LoadUser | client/src/pages/Profile.js:22-30 | the form takes the user's values; nothing else changes |
| Profile.ProfilePage.StartEditing | client/src/pages/Profile.js:121 | edit mode on; form and errors unchanged |
| Profile.ProfilePage.HandleChange | client/src/pages/Profile.js:45-59 | exactly the named field changes and only its error is cleared |
| Profile.ProfilePage.Validate | client/src/pages/Profile.js:61-76 | errors replaced by the validator's; true exactly when there are none |
| Profile.ProfilePage.HandleSubmit | client/src/pages/Profile.js:78-98 | `updateProfile` is called exactly when valid; edit mode ends only when it reports success |
| Profile.ProfilePage.Cancel | client/src/pages/Profile.js:182-189 | edit mode off, form back to the user's values, all errors dropped |
| IdeaForm.IdeaErrors | client/src/components/forms/IdeaForm.js:12-19 | a title error exactly when the title is blank after trimming, the same for the description, with their messages (the Material variant, client/src/components/ideas/IdeaForm.js:14-21, is the same) |
| IdeaForm.IdeaValidIff | client/src/components/forms/IdeaForm.js:17-18 | valid exactly when title and description are both non-blank |
| IdeaForm.AddedTags | client/src/components/forms/IdeaForm.js:21-30 | blank input leaves the tags; otherwise the trimmed tag is appended unless present |
| IdeaForm.AddKeepsTagsDistinct | client/src/components/forms/IdeaForm.js:24-27 | adding keeps a duplicate-free list duplicate-free, grows it by at most one at the end, and the tag is then present |
| IdeaForm.AddThenRemove | client/src/components/forms/IdeaForm.js:21-34 | adding a new tag and then removing it restores the list |
| IdeaForm.IdeaFormState.constructor | client/src/components/forms/IdeaForm.js:6-10 | initial values, or "" and [] when missing; empty input and no errors |
| IdeaForm.IdeaFormState.SetTagInput | client/src/components/forms/IdeaForm.js:103 | only the tag input changes |
| IdeaForm.IdeaFormState.SetTitle | client/src/components/forms/IdeaForm.js:64 | `setTitle`: the title takes the typed value and nothing else changes |
| IdeaForm.IdeaFormState.SetDescription | client/src/components/forms/IdeaForm.js:82 | `setDescription`: the description takes the typed value and nothing else changes |
| IdeaForm.IdeaFormState.Validate | client/src/components/forms/IdeaForm.js:12-19 | errors replaced by the validator's; true exactly when both fields are non-blank |
| IdeaForm.IdeaFormState.HandleAddTag | client/src/components/forms/IdeaForm.js:21-30 | blank input: nothing changes and the input is kept; otherwise the trimmed tag is appended unless present and the input cleared |
| IdeaForm.IdeaFormState.HandleRemoveTag | client/src/components/forms/IdeaForm.js:32-34 | every copy of the tag leaves the list, the rest keep their order; nothing else changes |
| IdeaForm.IdeaFormState.HandleSubmit | client/src/components/forms/IdeaForm.js:36-46 | `onSubmit` receives the untrimmed title and description and the tags, exactly when the form validates |
| IdeaForm.IdeaFormState.HandleKeyDown | client/src/components/forms/IdeaForm.js:48-54 | Enter with non-blank input prevents the default and adds the tag; anything else changes nothing |
| Home.Toggle | client/src/pages/Home.js:81 | the tag's membership flips, every other tag's is kept, and a new tag goes to the end |
| Home.ToggleTwice | client/src/pages/Home.js:81 | toggling an unselected tag twice restores the selection exactly |
| Home.ToggleKeepsDistinct | client/src/pages/Home.js:81 | toggling keeps the selection free of repeats |
| Home.Get | client/src/pages/Home.js:32-42 | `URLSearchParams.get`: none exactly when no pair has the name, else the value of the first pair with it |
| Home.GetAppend | client/src/pages/Home.js:33-41 | appending a pair changes the answer only for its own name, and only when that name had no pair |
| Home.ServerReadsClientPage | client/src/pages/Home.js:33-34 | the page the client sends is the page the listing handler reads, and "5" reads as limit 5 |
| Home.TagsRoundTrip | client/src/pages/Home.js:41 | tags joined with "," and read back by the search handler's split and trim give the list back, when no tag holds a comma or surrounding whitespace |
| Home.HomePage.constructor | client/src/pages/Home.js:14-18 | page 1, one page, empty search and query, no tags |
| Home.HomePage.SetSearch | client/src/pages/Home.js:120 | only the search box changes |
| Home.HomePage.HandleSearchSubmit | client/src/pages/Home.js:68-72 | the typed text becomes the query and the page is 1 |
| Home.HomePage.HandleClearSearch | client/src/pages/Home.js:74-78 | box and query emptied and the page is 1 |
| Home.HomePage.HandleTagToggle | client/src/pages/Home.js:80-83 | the selection is toggled and the page is 1 |
| Home.HomePage.ClickPrevious | client/src/pages/Home.js:179-188 | moves back one page exactly when the pager is shown and page is not 1 |
| Home.HomePage.ClickNext | client/src/pages/Home.js:179-200 | moves on one page exactly when the pager is shown and page is not totalPages |
| Home.HomePage.ReceivePage | client/src/pages/Home.js:45-46 | `totalPages \|\| 1`: a missing or zero count becomes 1 |
| Home.HomePage.BuildQuery | client/src/pages/Home.js:32-42 | always `page` and `limit=5`; `search` only for a non-empty query; `tags` only with a selection, joined with "," |
| Home.HomePage.PreviousDisabled | client/src/pages/Home.js:183 | "Previous" is disabled exactly on page 1 |
| Home.HomePage.NextDisabled | client/src/pages/Home.js:196 | "Next" is disabled exactly on the last page |
| Home.HomePage.PagerShown | client/src/pages/Home.js:171-179 | the pager shows only with ideas on the page and more than one page |

## Left out

- Rendering, routing, navigation, `window.scrollTo` and the loading and error flags of the pages are user interface, not logic.
- HTTP transport, axios, promises and the order in which asynchronous work completes are not modelled. Each handler is one atomic step, so the read-then-save race on the vote lists is not modelled.
- bcrypt and JWT are function-valued parameters (`Users.Hasher`, `Users.Signer`). Salt generation, the signing secret, token verification in the auth middleware and real cryptographic strength are not modelled.
- Object ids are allocated by the store: `IdeaStore.Store` uses a counter and `Users.Registry.Register` takes the fresh id as a parameter. An id string is either a stored or an absent id, or `Malformed` (its cast throws).
- server/models/User.js is not part of this model. A register request with missing fields, which the user schema would refuse with 400, is not modelled, and `Users.Registry.Register` always succeeds for a new email.
- `Users.Registry.Login`: the email and password are always strings, so a login body that lacks either field is not modelled. For a missing password, `bcrypt.compare` (server/controllers/userController.js:30) throws, and the catch (:38-40) answers 500 with the error message.
- `getProfile` (server/controllers/userController.js:44-51) has no route and is not modelled.
- `searchIdeas` is modelled only for its reading of `tags` (`IdeaStore.TagFilter`). Its regex title search and `$in` match are left out, since no route reaches the handler in front of `/:id`.
- The `/ideas/tags` fetch of the home page is an endpoint that does not exist and only feeds the tag buttons.
- `IdeaStore.Store.Update`: a body whose `creator` is not an object id, or whose values are `null` or of the wrong type, is not modelled. Body paths are typed `Option` values.
- Driver and runtime error messages are the opaque body `DriverError`, not their text.
- `IdeaStore.SortNewestFirst`: the order among ideas with equal `createdAt` is one permitted order, not the store's.
- `Text.ParseInt`: numbers are unbounded integers, not doubles, so precision loss above 2^53 is not modelled. String lengths count characters, not UTF-16 code units.
- Query strings are not URL-encoded or decoded (`Home.HomePage.BuildQuery`).
- `Home.HomePage.PagerShown` uses the number of ideas on screen (`ideaCount`) for `ideas.length > 0`. A failed fetch, which empties the list without touching `totalPages`, is not modelled.
- `Votes.Swap` is a helper for stating that downvote mirrors upvote.

## Findings

| source | as written | input that shows it | evidently intended | confidence | as-written member | corrected member |
|---|---|---|---|---|---|---|
| server/controllers/userController.js:55 | `/me` answers `_id: req.user._id`, but server/middleware/auth.js:13 builds `req.user` with an `id` key and no `_id` | any authenticated user, e.g. `{id: "u1", username: "ann", email: "a@b.c"}`: the answer has no `_id` | answer the user's id | not executed | Users.GetMeAsWritten | Users.GetMe |
