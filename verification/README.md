# momAI client core in Dafny

A model of the state logic of the momAI web client, a single-page React
application for a parenting-advice chat. The client's logic is a set of
small, sequential state transitions. Each one is written here as a pure
function over immutable data and proved against a contract. The modelled parts are:

- **Conversation store** (`Conversations`, from `src/components/Conversation.jsx`).
  It holds the list of conversations, the active conversation id and the busy flag.
  Its operations are create, select, remove and add-message. It also has the two
  send operations (`sendUserMessage` and `resendAsUser`). A send appends the
  user's message and raises the busy flag. It also schedules a simulated
  assistant reply. Here the timer is a `pending` reply in the store. It fires as
  a separate `ReplyArrives` transition, which appends the bot's message and
  clears the busy flag. Browser storage is modelled as a `Snapshot` value that
  is read at start-up and written by `Persist`.
- **Profile editor** (`Profile`, from `src/pages/Profile.jsx`). It holds a user
  record, two id-keyed lists (social profiles and education) and one edit dialog.
  The operations are open, close, save and the two removals. The avatar initials
  are here too. JavaScript objects are `map<string, Value>`, and an object
  spread is map union.
- **Sign-in / sign-up page** (`AuthPage`, from `src/pages/AuthPage.jsx`). It has
  the form, the validator with its per-field error flags and messages, the
  effects a submit sets off, and the mode links. The email rule
  `/\S+@\S+\.\S+/.test(...)` is a ghost "some substring matches" predicate. A
  lemma proves that it agrees with an executable check.
- **Application shell** (`App`, from `src/App.jsx`). It has the route table
  guarded by the authentication flag, and the theme classes on the document
  body. It also has the side menu, the sign-in and logout handlers, and which
  chrome is shown.
- **Carousels and drawer** (`Carousel`, `Blog`, `History`, from
  `src/pages/Blog.jsx` and `src/pages/History.jsx`). Both pages hold a copy of
  the same three-slide carousel, so it is modelled once. Its index is advanced
  by a timer `Tick` event and set by indicator clicks. The pages also have slide
  captions, and the blog page has a right-hand drawer.

Some helper modules give the JavaScript semantics the pages rely on:

- `Decimal`: printing and reading decimal integers.
- `JsText`: white space, `trim`, and `split`/`join`.
- `JsValue`: truthiness, `===`, and `Number()`.
- `Lists`: `filter`.
- `Wrappers`: `Option`, for `null` and `undefined`.

Clock readings (`Date.now()`) are parameters. A message takes its id and its
timestamp from two separate readings. Timers become explicit events.

`Conversation.jsx` makes no remote calls, does no per-user scoping, does not
check the message text, and writes no error messages into the transcript. A
send with no active conversation is refused, and the reply is a local 1400 ms
simulation.

## Model

| member | source | states |
|---|---|---|
| Conversations.Initial | src/components/Conversation.jsx:9-27 | With nothing saved, the list is one empty "Conversation 1" whose id is the clock reading. A saved list is used as is. A saved active id wins; otherwise the first conversation's id is used, or null for an empty list. The store starts idle with no reply pending. |
| Conversations.FreshStart | src/components/Conversation.jsx:9-25 | A fresh start holds exactly one empty "Conversation 1". It is active, the active id is valid, and the store is idle. |
| Conversations.ReloadRestores | src/components/Conversation.jsx:29-35 | Reloading a persisted store gives back the same conversations. It gives back the active id when that id was truthy. Otherwise it gives back the previously stored active id. |
| Conversations.Persist | src/components/Conversation.jsx:28-35 | Storage always receives the current list. It receives the active id when that id is truthy; a falsy id leaves the previously saved one in place. |
| Conversations.StaleActiveAfterReload | src/components/Conversation.jsx:33-35 | The active id is written only when truthy. So after the only conversation is removed, a reload restores an active id that names no conversation. |
| Conversations.PersistClearing | src/components/Conversation.jsx:33-35 | Corrected persistence: the list is always written, a truthy active id is written, and a falsy one clears the stored id. |
| Conversations.ReloadKeepsActiveValid | src/components/Conversation.jsx:33-35 | Corrected persistence clears the stored id when the active id is falsy. With it, a store with a valid active id reloads with the same list and a valid active id. |
| Conversations.NewConversation | src/components/Conversation.jsx:37-42 | Prepends exactly one empty conversation with the clock id and makes it active. The old conversations follow unchanged and in order. The busy state is untouched. |
| Conversations.NewConversationTitle | src/components/Conversation.jsx:38 | The new title is "Conversation " followed by decimal digits whose value is the previous count plus one. |
| Conversations.NewConversationKeepsInvariants | src/components/Conversation.jsx:37-42 | After a create, the active id names a conversation, and busy still matches the outstanding reply. |
| Conversations.Select | src/components/Conversation.jsx:44-46 | Sets the active id to the argument with no existence check. Nothing else changes. |
| Conversations.SelectIdempotent | src/components/Conversation.jsx:44-46 | Selecting the same id twice is the same as selecting it once. |
| Conversations.Without | src/components/Conversation.jsx:50 | A conversation survives removal exactly when its id differs from the removed id. |
| Conversations.WithoutAppend | src/components/Conversation.jsx:48-52 | Removal filters each part of a list in place, so the survivors keep their original order. |
| Conversations.WithoutAbsent | src/components/Conversation.jsx:48-52 | Removing an id that no conversation has leaves the list unchanged. |
| Conversations.FirstOther | src/components/Conversation.jsx:53 | The fallback id differs from the removed id and names a conversation of the old list. It is null exactly when every conversation has the removed id. |
| Conversations.FirstOtherIsHead | src/components/Conversation.jsx:53 | The first other conversation of the pre-removal list is the head of the post-removal list. |
| Conversations.Remove | src/components/Conversation.jsx:48-54 | The list loses exactly the conversations with the id. An active removed id falls back to the first other conversation of the old list, or null. Any other active id is unchanged. |
| Conversations.RemoveActiveFallsBack | src/components/Conversation.jsx:53 | After removing the active conversation, the active id is the id of the first remaining conversation, or null if none remain. |
| Conversations.RemoveOnlyConversation | src/components/Conversation.jsx:48-54 | Removing the only conversation while it is active empties the list and clears the active id. |
| Conversations.RemoveKeepsActiveValid | src/components/Conversation.jsx:48-54 | Removal preserves "the active id is null or names a conversation". |
| Conversations.AppendTo | src/components/Conversation.jsx:58 | Every conversation with the id gets the message at the end of its messages. The others are unchanged. Length, order, ids and titles are kept. |
| Conversations.AddMessage | src/components/Conversation.jsx:57-59 | Adding a message changes only the list, and only as AppendTo does. The active id, busy flag and pending reply stay. |
| Conversations.Send | src/components/Conversation.jsx:62-89 | A falsy target or a busy store makes a send a no-op. Otherwise one user message is appended to the target, the store turns busy, and a reply to that target with that text is scheduled. |
| Conversations.SendUserMessage | src/components/Conversation.jsx:62-76 | With no truthy active id, or while busy, nothing changes. Otherwise one user message goes to the active conversation, the store turns busy, and the reply to it is scheduled. |
| Conversations.ResendAsUser | src/components/Conversation.jsx:79-89 | With a falsy conversation id, or while busy, nothing changes. Otherwise one user message goes to that conversation, active or not. The active id stays, the store turns busy, and the reply to that conversation is scheduled. |
| Conversations.ReplyArrives | src/components/Conversation.jsx:71-75 | The reply appends one bot message, `AI reply to: "<text>"`. It goes to the conversation captured at send time. Then busy is cleared and nothing stays pending. With nothing pending it is a no-op. |
| Conversations.SendsAppendOnly | src/components/Conversation.jsx:57-89 | Sends and replies keep every conversation's id, title and position. Old messages are a prefix of the new ones. |
| Conversations.SecondSendRefused | src/components/Conversation.jsx:63 | Once a send has been accepted, any further send or resend is a no-op until the reply arrives. |
| Conversations.SendThenReply | src/components/Conversation.jsx:62-76 | A send then its reply add exactly the user message and then the bot message to the target. Other conversations are untouched, and the store is idle again. |
| Conversations.StepKeepsBusyMatchesPending | src/components/Conversation.jsx:27-89 | Every store operation keeps this rule: busy holds exactly when one reply is outstanding. |
| Conversations.StepKeepsActiveValid | src/components/Conversation.jsx:37-89 | Every operation except selecting an unknown id keeps the active id null or naming a conversation. |
| Conversations.RunKeepsBusyMatchesPending | src/components/Conversation.jsx:61-89 | Along any sequence of operations, at most one reply is outstanding, and exactly while busy. |
| Conversations.RunKeepsActiveValid | src/components/Conversation.jsx:37-89 | Along any sequence of operations in which every select names null or a conversation listed at that moment, the active id stays null or names a conversation. The program's menus select only listed ids. |
| Lists.Filter | src/pages/Profile.jsx:74-75 | The result holds exactly the accepted elements of the input, and is no longer than it. |
| Lists.FilterAppend | src/pages/Profile.jsx:74-75 | Filtering keeps the survivors in their original order. |
| Lists.FilterKeepsAll | src/components/Conversation.jsx:50 | A filter that rejects nothing returns its input. |
| Lists.FilterIdempotent | src/pages/Profile.jsx:74-75 | Filtering twice by the same test is filtering once; `Profile.RemoveTwice` applies it. |
| Decimal.Show | src/components/Conversation.jsx:38 | A number prints as a non-empty string of decimal digits without a leading zero. |
| Decimal.ValueOfShow | src/components/Conversation.jsx:38 | Reading back a printed number gives the number. |
| Decimal.ShowInjective | src/pages/History.jsx:44 | Distinct numbers print differently; `History.DistinctCaptions` applies it to the years. |
| JsText.LeadingBlanks | src/pages/AuthPage.jsx:122 | The count of leading white-space characters: every character before it is white space, and the one at it, if any, is not. |
| JsText.TrimStart | src/pages/AuthPage.jsx:122 | The result is a suffix of the input. Everything dropped is white space, and the result does not start with white space. |
| JsText.TrimEnd | src/pages/AuthPage.jsx:122 | The result is a prefix of the input. Everything dropped is white space, and the result does not end with white space. |
| JsText.TrimEmptyIff | src/pages/AuthPage.jsx:122 | A string trims to empty exactly when it is all white space. |
| JsText.TrimUntouched | src/pages/Profile.jsx:68 | A string that neither starts nor ends with white space trims to itself. |
| JsText.Split | src/pages/Profile.jsx:242 | Splitting gives at least one piece, and no piece contains the separator. |
| JsText.JoinSplit | src/pages/Profile.jsx:242 | Joining the pieces with the separator restores the string. |
| JsText.SplitWithoutSeparator | src/pages/Profile.jsx:242 | A string without the separator is one piece. |
| JsText.SplitWord | src/pages/Profile.jsx:242 | A separator-free word followed by the separator becomes the first piece, and the rest splits on. |
| JsValue.ParseNumber | src/pages/Profile.jsx:68 | `Number` of a string is a number or NaN. It is NaN exactly when the trimmed text is non-blank and not a signed decimal integer. |
| JsValue.ToNumber | src/pages/Profile.jsx:68 | `Number` never yields a string, and leaves a number as it is. |
| JsValue.ParseNumberShow | src/pages/Profile.jsx:355 | The decimal text of n, as the credits input holds it, reads back as n. |
| JsValue.ParseNumberShowNegative | src/pages/Profile.jsx:355 | The decimal text of n with a minus sign reads back as -n. |
| JsValue.ParseDigits | src/pages/Profile.jsx:355 | Decimal digits, leading zeros included, read back as their value. |
| JsValue.ParsePlusDigits | src/pages/Profile.jsx:355 | A plus sign followed by decimal digits reads back as the value of the digits. |
| JsValue.ParseNegativeDigits | src/pages/Profile.jsx:355 | A minus sign followed by decimal digits reads back as the negated value of the digits. |
| Profile.MergeById | src/pages/Profile.jsx:57 | Entries whose id is `===` the edited id get the form's fields over their own. Other entries are unchanged, and length and order are kept. |
| Profile.RemoveById | src/pages/Profile.jsx:74-75 | The result holds exactly the entries whose id is not `===` the given id. |
| Profile.OpenEdit | src/pages/Profile.jsx:40-43 | The form becomes the payload and the dialog records the kind and the payload's id. The user and lists are untouched. |
| Profile.CloseEdit | src/pages/Profile.jsx:45-48 | No dialog is open and the form is empty. The user and lists are untouched. |
| Profile.SaveEdit | src/pages/Profile.jsx:50-72 | With no dialog open, a save is a no-op. Any save that proceeds ends with no dialog and an empty form. |
| Profile.SaveUserEdit | src/pages/Profile.jsx:53-54 | A user edit overwrites exactly the fields in the form and keeps the other user fields. The lists stay. |
| Profile.SaveListEditMerges | src/pages/Profile.jsx:55-63 | A social or education edit with a truthy id merges the form into every entry with that id. The other entries, length, order, other list and user stay. |
| Profile.SaveListEditAppends | src/pages/Profile.jsx:58-65 | A social or education edit without a truthy id appends one entry at the end. It holds the form's fields, and its id is the clock reading unless the form has an id. |
| Profile.SaveCreditsEdit | src/pages/Profile.jsx:67-68 | Credits become `Number` of the entered value when that value is truthy. Otherwise a numeric balance stays. No other field changes. |
| Profile.UntouchedUserEditIsNoop | src/pages/Profile.jsx:204 | Opening the user dialog and saving without typing leaves the user unchanged. |
| Profile.UntouchedEntryEditIsNoop | src/pages/Profile.jsx:154 | Opening an entry's dialog and saving without typing leaves its list unchanged. |
| Profile.RemoveSocial | src/pages/Profile.jsx:74 | Only the social list changes, and it loses exactly the entries with the id. |
| Profile.RemoveEducation | src/pages/Profile.jsx:75 | Only the education list changes, and it loses exactly the entries with the id. |
| Profile.RemoveByIdInOrder | src/pages/Profile.jsx:74-75 | Removal keeps the survivors in order. Removing an absent id changes nothing. |
| Profile.RemoveTwice | src/pages/Profile.jsx:74-75 | Removing the same social or education entry twice is removing it once. |
| Profile.Initials | src/pages/Profile.jsx:242 | The initials have at most two characters. |
| Profile.FirstChar | src/pages/Profile.jsx:242 | `n[0]` joins as at most one character, and as nothing for an empty piece. |
| Profile.InitialsOfOneWord | src/pages/Profile.jsx:242 | A one-word name gives its first character. |
| Profile.InitialsOfWords | src/pages/Profile.jsx:399 | A name of two or more words gives the first characters of its first two words. |
| Profile.Avatar | src/pages/Profile.jsx:242 | The avatar text exists exactly when the name is a string. It has at most two characters, and it starts with the name's first character when the name starts with a non-space. |
| Profile.InitialAvatar | src/pages/Profile.jsx:5-11 | The sample user's avatar reads "MK". |
| Profile.SampleInitials | src/pages/Profile.jsx:6 | "Marios Kalogerakis" has initials "MK". |
| AuthPage.EmailPatternIff | src/pages/AuthPage.jsx:131 | The executable email test holds exactly when some substring matches `\S+@\S+\.\S+`. |
| AuthPage.NoDotNoEmail | src/pages/AuthPage.jsx:131 | An address without a `.` never passes. |
| AuthPage.SampleEmailMatches | src/pages/AuthPage.jsx:131 | "mom@example.com" passes. |
| AuthPage.EmptyEmailFails | src/pages/AuthPage.jsx:131 | The empty email fails, so the `!username` guard adds nothing. |
| AuthPage.NameCheck | src/pages/AuthPage.jsx:122-129 | The name flag is raised, with "Name is required.", exactly when the name is all white space. Otherwise the flag is false and the message empty. |
| AuthPage.EmailCheck | src/pages/AuthPage.jsx:131-138 | The email flag is raised, with its fixed message, exactly when no substring matches the pattern. Otherwise the flag is false and the message empty. |
| AuthPage.PasswordCheck | src/pages/AuthPage.jsx:139-146 | The password flag is raised, with its fixed message, exactly when the password is shorter than 3. Otherwise the flag is false and the message empty. |
| AuthPage.Validate | src/pages/AuthPage.jsx:119-148 | The form is valid exactly when every applicable check passes. The name is checked only in sign-up mode; in sign-in mode its flags are untouched. |
| AuthPage.SignInIgnoresName | src/pages/AuthPage.jsx:119-148 | In sign-in mode, neither the verdict nor the errors depend on the name. |
| AuthPage.FlagIffMessage | src/pages/AuthPage.jsx:122-146 | In either mode, the email and password flags are raised exactly when their messages are non-empty. In sign-up mode the same holds for the name; in sign-in mode the name keeps its earlier state. |
| AuthPage.Submit | src/pages/AuthPage.jsx:150-156 | An invalid form only shows its errors and sets off nothing. A valid one calls `setTheme(gender)`, then `onAuth()`, then navigates home. |
| AuthPage.Callbacks | src/pages/AuthPage.jsx:153-154 | With both callbacks given, a valid submit calls `setTheme(gender)` and then `onAuth()`. |
| AuthPage.ModeLinks | src/pages/AuthPage.jsx:389-410 | The page starts in sign-in mode. Each of the two links sets its mode (sign-up or sign-in) and changes nothing else. |
| App.Route | src/App.jsx:52-106 | `/auth` always renders the sign-in page. A guarded path renders its page when signed in and otherwise redirects to `/auth`. Any other path redirects to `/` when signed in and to `/auth` otherwise. |
| App.RoutingSettles | src/App.jsx:52-106 | Every path settles on a page within two redirects. Signed out, that page is always the sign-in page. Signed in, it is the named page, or the chat page for an unknown path. |
| App.SetThemeClass | src/App.jsx:25-26 | Exactly one theme class ends up on the body: the girl class iff the theme is "girl". Other classes are untouched. |
| App.InitialApp | src/App.jsx:14-32 | The shell mounts signed out, with the menu closed and theme "boy". The boy class is the body's only theme class, and every other class the body had stays. |
| App.ApplyTheme | src/App.jsx:20-27 | The theme is recorded and stored. Exactly one theme class is set, the girl class iff the theme is "girl". Every other body class, auth, menu and location are untouched. |
| App.OnAuth | src/App.jsx:58 | Signs the user in and changes nothing else. |
| App.Logout | src/App.jsx:20-49 | Signs the user out and applies theme "boy": the stored theme becomes "boy" and the boy class is the body's only theme class. Every other body class, the menu and the location stay as they were. |
| App.ToggleMenu | src/App.jsx:17 | Flips the menu. Location, sign-in state, theme, body classes and stored theme stay as they were. |
| App.CloseMenu | src/App.jsx:18 | Leaves the menu closed. Location, sign-in state, theme, body classes and stored theme stay as they were. |
| App.Chrome | src/App.jsx:36-51 | The side menu and the user settings are shown exactly when the user is signed in. |
| App.MenuToggles | src/App.jsx:14-18 | Toggling twice is the identity, and closing is idempotent. |
| App.TransitionsKeepOneThemeClass | src/App.jsx:20-49 | Every shell transition keeps exactly one theme class on the body. |
| App.SignInFlow | src/App.jsx:53-61 | A valid submit signs the user in with the chosen theme and lands on the chat page with the chrome shown. An invalid one leaves the shell unchanged. |
| Carousel.Advance | src/pages/Blog.jsx:12-15 | A tick moves the index one slide on and wraps from the last slide to 0. The result is always in range. |
| Carousel.GoToSlide | src/pages/Blog.jsx:31-37 | An indicator click sets the index to that indicator's. |
| Carousel.Indicators | src/pages/Blog.jsx:52-59 | There are three indicators, and indicator k is active iff k is the current index. |
| Carousel.InitialIndex | src/pages/Blog.jsx:7 | A carousel mounts on an index in range, with the first indicator active. |
| Carousel.RunStaysInRange | src/pages/Blog.jsx:6-37 | From any index in range, any mix of ticks and indicator clicks keeps the index in 0..2. |
| Carousel.MountedStaysInRange | src/pages/Blog.jsx:6-37 | From the mount index, any mix of ticks and indicator clicks keeps the index in 0..2. |
| Carousel.TicksRotate | src/pages/History.jsx:11-14 | n ticks move the index from i to (i+n) mod 3. |
| Carousel.ThreeTicksReturn | src/pages/Blog.jsx:14 | Three ticks return every index to itself. |
| Carousel.ExactlyOneActive | src/pages/History.jsx:51-58 | For an index in range, exactly one indicator is active. |
| Blog.SlideLabels | src/pages/Blog.jsx:42-45 | The blog captions are "Slide 1", "Slide 2" and "Slide 3". |
| Blog.ToggleRight | src/pages/Blog.jsx:68-72 | The arrow flips the drawer. |
| Blog.CloseRight | src/pages/Blog.jsx:99 | An overlay or menu-link click leaves the drawer closed. |
| Blog.ContentClick | src/pages/Blog.jsx:128 | A page-content click leaves the drawer closed. |
| Blog.DrawerLaws | src/pages/Blog.jsx:66-128 | Two toggles cancel, and a content click acts like the overlay. Opening and then clicking the content returns to the initial closed drawer. |
| History.SlideLabels | src/pages/History.jsx:41-45 | The history captions read "History 2024", "History 2023" and "History 2022", in slide order. |
| History.DistinctCaptions | src/pages/History.jsx:41-45 | Different slides carry different captions. |

The History page's `CinemaCarousel` (`src/pages/History.jsx:4-62`) is the same
carousel as the blog one apart from its captions, so the `Carousel` module models both. The blog menu links
(`src/pages/Blog.jsx:108-118`) close the drawer exactly as the overlay does
(`Blog.CloseRight`).

## Left out

- Browser storage and JSON: the saved list and active id are a `Snapshot` value. A missing or unreadable entry is "nothing saved". Serialisation is not modelled.
- Clock and timers: `Date.now()` ids and timestamps are parameters. A message's id and its timestamp come from two separate parameters, as the two clock reads of the source may differ. The 1400 ms reply delay, the 4000 ms carousel interval and the 40 ms navigation delay are not modelled. Each timer callback is an explicit event.
- React batching and closures: callbacks read the state of the last render. Two clicks within one render could both see `isBusy` false. The model applies events one at a time to the latest state.
- Conversations.Select: like the source, it does not check that the id exists. So `ActiveValid` is proved only for runs in which every select names null or a conversation listed at that moment.
- AuthPage.Submit: it states the exact effect list only when both callbacks are passed, which is how `App.jsx` mounts the page. Otherwise it states only that navigation comes last.
- Numbers: JavaScript numbers are 64-bit floats, but the model uses unbounded integers. `Number()` of text with a decimal point, an exponent, a hex prefix or `Infinity` is NaN in the model.
- String units: Dafny characters are Unicode code points, but JavaScript `length` and `n[0]` count UTF-16 code units. The password length and the initials differ only for characters outside the Basic Multilingual Plane.
- Route matching: React Router matches paths case-insensitively and ignores a trailing slash. The model matches paths exactly.
- Profile.Avatar: a name that is not a string has no initials in the model, where JavaScript would throw. The edit form only ever stores strings there.
- Presentation with no state rules is not part of this model:
  - carousel pixel offsets and resize listeners
  - scroll listeners in the profile and global chat pages
  - the profile panel selection and preview box
  - click-outside and Escape handling in the user and side menus
  - the chat input's auto-resize
- Other files: `User.jsx`, `SlideMenu.jsx`, `Upload.jsx`, `GlobalChat.jsx`, `Menu.jsx`, `CustomIcons.jsx`, `ChatInput.jsx`, `Api.js` and `vite.config.js` are not part of this model. The user settings' theme switch repeats `applyTheme`, and the global chat only appends a message. `Post.jsx` is not part of this model either; only its route is.

## Findings

| source | as written | input that shows it | evidently intended | confidence | as-written member | corrected member |
|---|---|---|---|---|---|---|
| src/components/Conversation.jsx:33-35 | the active id is saved only when truthy, and is never cleared from storage | remove the only (active) conversation, then reload | a cleared active id clears the saved one, so a reload picks the first conversation or none | medium, not executed | Conversations.StaleActiveAfterReload | Conversations.ReloadKeepsActiveValid |
