# Three in-memory services, modelled and verified in Dafny

This project models the stateful core of three small sequential Java services from
the `questions` package. It proves what each operation does to the objects it
changes.

- **Parking lot** (`questions/ParkingLotQuestion.java`; modules `ParkingSpec` and
  `Parking`).
  - A `Level` holds a list of `ParkingSpot`s and a free-place counter `capacity`,
    which starts at 5.
  - `FirstAvailableStrategy` picks the first level with space.
  - `ParkingLot` creates levels lazily, up to `maxLevels = 3`. It hands out tickets
    numbered from `nextTicket` and stores each ticket's spot in a ticket table.
  - After every successful `park` and every `exit` of a known ticket, it sends each
    registered observer the sum of the free counters.
  - The classes of `Parking` are imperative. Each method is proved to move its
    objects exactly as a state transformer of `ParkingSpec` says (`ParkStep`,
    `ExitStep`, `Notified`, ...). The lemmas of `ParkingSpec` state what those
    transformers do over one call and over whole runs of park/exit commands.
- **Library service** (`questions/LibraryManagementSystem.java`; module `Library`).
  - Books carry copy counters and users carry a borrow counter.
  - An in-memory repository maps each isbn to its `Book`.
  - A pluggable borrow rule gates `borrowBook`.
  - `addBookStock`, `borrowBook` and `returnBook` move the counters.
- **Question-and-answer platform** (`questions/StackOverflowPlatformDemo.java`;
  modules `StackOverflow` and `Text`).
  - Posts carry votes and users carry reputation.
  - Questions hold answers, comments and tags.
  - `QuestionRepository` is a tag index: a map from each tag to its list of
    questions.
  - Three search strategies: by tag, by keyword, by author.
  - The index and the searches are specified by functions on values (`IndexWith`,
    `IndexAll`, `Flatten`, `Filter`). Lemmas count how often a question is listed
    and fix the order of the results.
  - `Text` holds ASCII case folding, substring containment and equality ignoring
    case.

## Quirks of the code

The parking lot is modelled as the code is written, and the lemmas expose how it
behaves:

- **Spot numbers repeat.** `addSpot` numbers a spot with the current length of the
  level's spot list (`questions/ParkingLotQuestion.java:53`), and `removeSpot`
  shortens that list. So after removing any number but the highest from a level
  numbered 0..k-1, the next spot gets the number of a spot still on the level
  (`ParkingSpec.SpotNumberRepeatsAfterRemoval`).
- **A level can report more than 5 free places.** `removeSpot` raises `capacity`
  whether or not a spot matched (lines 59-62; `ParkingSpec.UnmatchedRemovalOverfills`).
  A new level whose only `removeSpot` matches nothing reports 6. Through `exit`,
  every level that holds no spot with the stored number gets this extra place
  (`ParkingSpec.ExitFreesNumberOnEveryLevel`).
- **`exit` frees the number on every level.** It calls `removeSpot` on every level,
  since the ticket records no level (line 138). Every level loses every
  spot with the stored number and gains one free place, so the total free count
  grows by the number of levels (`ParkingSpec.ExitFreesNumberOnEveryLevel`,
  `ParkingSpec.TotalAvailableRemoveEverywhere`).
- **A valid ticket can lose its spot.** The ticket table stores a spot number and no
  level (lines 129-130). Park twice, exit ticket 1, park again, exit ticket 2: ticket
  3 is still outstanding, but no level holds a spot for it, and the only level
  reports 4 free places while holding no vehicle
  (`ParkingSpec.ReusedSpotNumberStrandsTicket`).
- **New levels.** `createLevelIfNeeded` appends a level only when the list is empty
  or its last level is full, and only below `maxLevels` (lines 113-119;
  `ParkingSpec.LevelIfNeeded`). `park` calls it only after the strategy has found no
  level with space, and then that condition always holds
  (`ParkingSpec.ParkOccupiesOneLevel`).

## Model

| member | source | states |
|---|---|---|
| ParkingSpec.Without | questions/ParkingLotQuestion.java:60 | `removeIf` keeps each spot with another number exactly as often as it occurred and drops every spot with that number; the list never grows and is unchanged when no number matches |
| ParkingSpec.WithoutOneNumber | questions/ParkingLotQuestion.java:60 | when spot numbers are distinct and one of them is `n`, removing `n` shortens the list by exactly one |
| ParkingSpec.SpotNumberRepeatsAfterRemoval | questions/ParkingLotQuestion.java:52-62 | on a level numbered 0..k-1 by `addSpot`, removing any number but the highest and then adding a spot gives the new spot the number of a spot still on the level |
| ParkingSpec.LevelState.WithSpot | questions/ParkingLotQuestion.java:52-57 | `addSpot` on a level's fields: one spot numbered with the old spot count appended, one free place less (stated by `Parking.Level.AddSpot` and `ParkingSpec.ParkOccupiesOneLevel`) |
| ParkingSpec.LevelState.WithoutSpot | questions/ParkingLotQuestion.java:59-62 | `removeSpot` on a level's fields: the spots `Without` keeps, and one free place more whether or not a spot matched (stated by `ParkingSpec.ExitFreesNumberOnEveryLevel`) |
| ParkingSpec.UnmatchedRemovalOverfills | questions/ParkingLotQuestion.java:59-62 | `removeSpot` of a number no spot carries keeps the spots but still adds a free place, so a new level reports 6 |
| ParkingSpec.FirstAvailable | questions/ParkingLotQuestion.java:77-83 | the index of the first level with `capacity > 0`: that level has space and every earlier one is full; None exactly when no level has space, including for no levels |
| ParkingSpec.LevelIfNeeded | questions/ParkingLotQuestion.java:113-119 | the list grows by one new level if and only if it is empty or its last level is full and there are not yet exactly `maxLevels` levels (under `Inv`, fewer than `maxLevels`); otherwise it is unchanged. The result is null if and only if the list is empty or its last level full at the ceiling; otherwise it is the last level of the list |
| ParkingSpec.Assign | questions/ParkingLotQuestion.java:122-123 | the level `park` uses (the strategy's, or else the one `createLevelIfNeeded` returns) has space |
| ParkingSpec.TotalAvailable | questions/ParkingLotQuestion.java:108-109 | the sum of `getAvailable()` over the levels, in list order (computed by `Parking.ParkingLot.NotifyAllObservers`; how park and exit move it is stated by `ParkingSpec.ParkNotifiesObservers` and `ParkingSpec.TotalAvailableRemoveEverywhere`) |
| ParkingSpec.Notified | questions/ParkingLotQuestion.java:107-111 | `notifyAllObservers` as a state change: one `update` call per observer with the total, appended to the record (stated by `ParkingSpec.NotifiedReachesEveryObserver`) |
| ParkingSpec.ParkStep | questions/ParkingLotQuestion.java:121-133 | `park` as a state change and its returned ticket; what it does is stated by `ParkingSpec.ParkRejectedOnlyWhenFull`, `ParkIssuesNextTicket`, `ParkOccupiesOneLevel`, `ParkNotifiesObservers` and `ParkKeepsInv` |
| ParkingSpec.ExitStep | questions/ParkingLotQuestion.java:135-141 | `exit` as a state change; what it does is stated by `ParkingSpec.ExitUnknownTicketIsNoOp`, `ExitTwiceIsExitOnce`, `ExitFreesNumberOnEveryLevel` and `ExitKeepsInv` |
| ParkingSpec.NotifiedReachesEveryObserver | questions/ParkingLotQuestion.java:107-111 | a notification changes nothing but the record of `update` calls, which gains one call per observer, in registration order, with the sum of the free counters |
| ParkingSpec.BroadcastInOrder | questions/ParkingLotQuestion.java:110 | the k-th `update` call goes to the k-th observer, with the total |
| ParkingSpec.Broadcast | questions/ParkingLotQuestion.java:110 | the `update` calls of one notification, one per observer in registration order with the same total (stated by `ParkingSpec.BroadcastInOrder`) |
| ParkingSpec.RemoveEverywhere | questions/ParkingLotQuestion.java:138 | `removeSpot(n)` applied to every level (computed by `Parking.ParkingLot.RemoveSpotOnEveryLevel`; its effect is stated by `ParkingSpec.TotalAvailableRemoveEverywhere` and `ParkingSpec.ExitFreesNumberOnEveryLevel`) |
| ParkingSpec.TotalAvailableRemoveEverywhere | questions/ParkingLotQuestion.java:138 | `removeSpot` on every level raises the total free count by the number of levels |
| ParkingSpec.ParkRejectedOnlyWhenFull | questions/ParkingLotQuestion.java:121-127 | `park` returns -1 if and only if there are `maxLevels` levels and all are full, and then the state, tickets, counter and observer record are all unchanged |
| ParkingSpec.ParkIssuesNextTicket | questions/ParkingLotQuestion.java:128-132 | a successful `park` returns the old `nextTicket`, which was not yet issued; it adds exactly that key, keeps every other ticket and increments `nextTicket` by one |
| ParkingSpec.ParkOccupiesOneLevel | questions/ParkingLotQuestion.java:122-130 | a successful `park` changes exactly one level: the first with space, or a new level after the full ones. That level loses one free place and gains one spot numbered with its old spot count, and the ticket records that spot |
| ParkingSpec.ParkNotifiesObservers | questions/ParkingLotQuestion.java:128-131 | after a successful `park` the total is one less (plus 5 when a level was created), and every observer, in order, is sent that total |
| ParkingSpec.ExitUnknownTicketIsNoOp | questions/ParkingLotQuestion.java:135-137 | `exit` of a ticket not in the table changes nothing and notifies no one, also when repeated |
| ParkingSpec.ExitTwiceIsExitOnce | questions/ParkingLotQuestion.java:135-141 | a second `exit` of the same ticket has no further effect |
| ParkingSpec.ExitFreesNumberOnEveryLevel | questions/ParkingLotQuestion.java:135-141 | `exit` of a known ticket removes that key and, on every level, every spot with the stored number, keeping every other spot as often as it occurred. It raises every level's counter by one, matched or not, keeps the observers and `nextTicket`, and sends each observer, in order, the new total, which grew by the number of levels |
| ParkingSpec.InitialSatisfiesInv | questions/ParkingLotQuestion.java:85-96 | a fresh lot has no levels, no tickets and `nextTicket = 1`, and satisfies the invariant |
| ParkingSpec.ParkKeepsInv | questions/ParkingLotQuestion.java:113-133 | `park` never creates more than `maxLevels` levels, never drives a counter negative, and keeps every ticket below `nextTicket` |
| ParkingSpec.ExitKeepsInv | questions/ParkingLotQuestion.java:135-141 | `exit` keeps the invariant |
| ParkingSpec.RunKeepsInv | questions/ParkingLotQuestion.java:144-172 | every run of park and exit commands keeps the invariant, so there are never more than 3 levels |
| ParkingSpec.IssuedTicketsAreConsecutive | questions/ParkingLotQuestion.java:121-141 | the tickets a run issues are `nextTicket`, `nextTicket + 1`, ... in order (1, 2, 3, ... from a fresh lot), and the counter ends past the last of them |
| ParkingSpec.ReusedSpotNumberStrandsTicket | questions/ParkingLotQuestion.java:128-138 | park, park, exit 1, park, exit 2 leaves ticket 3 outstanding, with its spot number 1 held by no level, and a level reporting 4 free places while empty |
| ParkingSpec.Execute | questions/ParkingLotQuestion.java:148-172 | `ParkCommand.execute` and `ExitCommand.execute` without their printing: one `park` or `exit` on the lot (`ParkingSpec.RunKeepsInv` shows each keeps the invariant) |
| ParkingSpec.Run | questions/ParkingLotQuestion.java:144-172 | the lot after executing a sequence of commands in order; `ParkingSpec.RunKeepsInv`, `IssuedTicketsAreConsecutive` and `ReusedSpotNumberStrandsTicket` state what runs do |
| ParkingSpec.Issued | questions/ParkingLotQuestion.java:155-157 | the tickets the park commands of a run print, skipping -1; `ParkingSpec.IssuedTicketsAreConsecutive` proves they are consecutive from `nextTicket` |
| Parking.Level.constructor | questions/ParkingLotQuestion.java:48-50 | a new level has no spots and 5 free places |
| Parking.Level.AddSpot | questions/ParkingLotQuestion.java:52-57 | appends a spot numbered with the old spot count, returns that number, and lowers the counter by one |
| Parking.Level.HasSpace | questions/ParkingLotQuestion.java:64-66 | a level has space exactly when `getAvailable()` is positive |
| Parking.Level.GetAvailable | questions/ParkingLotQuestion.java:68-70 | the level's free-place counter, summed by `Parking.ParkingLot.NotifyAllObservers` |
| Parking.Level.RemoveSpot | questions/ParkingLotQuestion.java:59-62 | removes every spot with that number and raises the counter by one |
| Parking.AssignLevel | questions/ParkingLotQuestion.java:77-83 | the loop returns the level `FirstAvailable` picks, or null exactly when no level has space |
| Parking.ParkingLot.constructor | questions/ParkingLotQuestion.java:85-96 | the new lot is in the initial state and valid |
| Parking.ParkingLot.AddObserver | questions/ParkingLotQuestion.java:103-105 | appends the observer and changes nothing else |
| Parking.ParkingLot.NotifyAllObservers | questions/ParkingLotQuestion.java:107-111 | the loops sum the free counters and call `update` on every observer, as `Notified` says |
| Parking.ParkingLot.CreateLevelIfNeeded | questions/ParkingLotQuestion.java:113-119 | the level list and the returned level are as `LevelIfNeeded` says; a new level is fresh |
| Parking.ParkingLot.ChooseLevel | questions/ParkingLotQuestion.java:122-123 | the chosen level and the grown list are as `Assign` says |
| Parking.ParkingLot.TakeSpot | questions/ParkingLotQuestion.java:128-130 | the chosen level gains the spot and the ticket table maps `nextTicket` to it |
| Parking.ParkingLot.NotifyAndIssue | questions/ParkingLotQuestion.java:131-132 | notifies the observers, then returns the old `nextTicket` and increments it |
| Parking.ParkingLot.ParkOn | questions/ParkingLotQuestion.java:128-132 | once a level is chosen, the rest of `park` moves the lot as `ParkStep` says and keeps the invariant |
| Parking.ParkingLot.Park | questions/ParkingLotQuestion.java:121-133 | the new state and the returned ticket are those of `ParkStep`, and the lot stays valid; the existing `Level` objects stay in the list, in order, and at most one fresh level is appended |
| Parking.ParkingLot.RemoveSpotOnEveryLevel | questions/ParkingLotQuestion.java:138 | the loop applies `removeSpot(n)` to every level |
| Parking.ParkingLot.Exit | questions/ParkingLotQuestion.java:135-141 | the new state is that of `ExitStep`, the level list is unchanged, and the lot stays valid |
| Library.Book.constructor | questions/LibraryManagementSystem.java:6-21 | a new book has its four descriptive fields and no copies |
| Library.User.constructor | questions/LibraryManagementSystem.java:23-31 | a new user has borrowed nothing and has limit 3 |
| Library.DefaultCanBorrow | questions/LibraryManagementSystem.java:75 | the default rule allows a borrow exactly when the user is below the limit and a copy is on the shelf; `Library.DefaultBorrowStaysInRange` states what that guarantees |
| Library.DefaultBorrowStaysInRange | questions/LibraryManagementSystem.java:75 | under the default rule a permitted borrow keeps in-range counters in range: no negative stock, no negative borrow count, and no count above the limit |
| Library.Stocked | questions/LibraryManagementSystem.java:95-96 | `count` added to both copy counters (applied to `b` by `Library.LibraryService.AddBookStock`) |
| Library.Lent | questions/LibraryManagementSystem.java:122-123 | one copy less on the shelf and one more borrowed by the user (applied by `Library.LibraryService.BorrowBook`; `Library.DefaultBorrowStaysInRange` and `Library.BorrowThenReturnGrowsStock` state its effect) |
| Library.TakenBack | questions/LibraryManagementSystem.java:137-139 | one more copy on the shelf and in stock and one less borrowed, unguarded (applied by `Library.LibraryService.ReturnBook`; `Library.ReturnWithoutBorrowGoesNegative` and `Library.BorrowThenReturnGrowsStock` state its effect) |
| Library.UnknownBook | questions/LibraryManagementSystem.java:133 | the "Unknown"/"Unknown"/"Misc" book with no copies that `returnBook` creates (`Library.UnknownReturnOwnsOneCopy`) |
| Library.BorrowThenReturnGrowsStock | questions/LibraryManagementSystem.java:122-139 | a borrow followed by a return restores the user and the shelf but owns one more copy |
| Library.ReturnWithoutBorrowGoesNegative | questions/LibraryManagementSystem.java:137-139 | a return with nothing borrowed drives the borrow count to -1 and the shelf above the stock owned before |
| Library.UnknownReturnOwnsOneCopy | questions/LibraryManagementSystem.java:131-139 | returning an unknown isbn leaves an "Unknown"/"Unknown"/"Misc" book under that isbn with one copy owned and one available |
| Library.InMemoryBookRepository.constructor | questions/LibraryManagementSystem.java:49-51 | a new repository is empty |
| Library.InMemoryBookRepository.AddBook | questions/LibraryManagementSystem.java:54-56 | afterwards `getBook(b.isbn)` is `b` and `exists(b.isbn)` holds; a book already under that isbn is replaced; every other isbn keeps its book |
| Library.InMemoryBookRepository.GetBook | questions/LibraryManagementSystem.java:59-66 | null exactly when `exists` is false; a stored book carries the isbn it is stored under |
| Library.InMemoryBookRepository.Exists | questions/LibraryManagementSystem.java:64-66 | whether a book is stored under the isbn; `Library.InMemoryBookRepository.GetBook` is null exactly when it is false, and `AddBook` makes it true |
| Library.LibraryService.constructor | questions/LibraryManagementSystem.java:86-89 | the service keeps the repository and the rule it is given |
| Library.LibraryService.AddBookStock | questions/LibraryManagementSystem.java:91-97 | stores `b` only when its isbn is absent, then adds `count` to both of b's counters; another book stored under the isbn keeps its counters |
| Library.LibraryService.BorrowBook | questions/LibraryManagementSystem.java:109-126 | an unknown isbn and a refusal by the rule (each if and only if) change no counter; otherwise the book lends one copy to the user; no other book changes |
| Library.LibraryService.ReturnBook | questions/LibraryManagementSystem.java:128-142 | an unknown isbn first gets a fresh "Unknown" book; then that book gains one copy on the shelf and in stock, and the user's count drops by one; no other book changes |
| Text.LowerChar | questions/StackOverflowPlatformDemo.java:180 | ASCII `toLowerCase` of one character: the result is never uppercase, an uppercase letter moves to its lowercase partner, and anything else is kept |
| Text.ToLower | questions/StackOverflowPlatformDemo.java:180 | `toLowerCase` keeps the length, folds each character, and leaves no uppercase letter |
| Text.ToLowerIdempotent | questions/StackOverflowPlatformDemo.java:180 | folding twice is folding once |
| Text.Contains | questions/StackOverflowPlatformDemo.java:180 | `String.contains`: the keyword occurs at some position of the content (`Text.ContainsFacts`, `Text.LongerNeverContained`) |
| Text.ContainsFacts | questions/StackOverflowPlatformDemo.java:180 | the empty keyword occurs in every content, and a string occurs in every string it begins or ends |
| Text.LongerNeverContained | questions/StackOverflowPlatformDemo.java:180 | a keyword longer than the content never occurs in it |
| Text.EqualsIgnoreCase | questions/StackOverflowPlatformDemo.java:192 | `String.equalsIgnoreCase` on ASCII: equal after folding (`Text.EqualsIgnoreCaseFacts`) |
| Text.EqualsIgnoreCaseFacts | questions/StackOverflowPlatformDemo.java:192 | `equalsIgnoreCase` is reflexive, symmetric and transitive, and holds exactly for strings of equal length whose characters agree after folding |
| StackOverflow.User.constructor | questions/StackOverflowPlatformDemo.java:99-107 | a new user has its name and email and no reputation |
| StackOverflow.User.NotifyVote | questions/StackOverflowPlatformDemo.java:109-112 | a vote on one of the user's posts adds exactly 10 reputation |
| StackOverflow.Post.constructor | questions/StackOverflowPlatformDemo.java:14-24 | a new post has its content and author and no votes |
| StackOverflow.Post.Upvote | questions/StackOverflowPlatformDemo.java:26-29 | one more vote on the post and exactly 10 more reputation for its author |
| StackOverflow.Comment.constructor | questions/StackOverflowPlatformDemo.java:91-95 | a new comment is a fresh post with no votes |
| StackOverflow.Answer.constructor | questions/StackOverflowPlatformDemo.java:75-80 | a new answer is a fresh post with no votes and no comments |
| StackOverflow.Answer.AddComment | questions/StackOverflowPlatformDemo.java:82-84 | appends exactly that comment |
| StackOverflow.Question.constructor | questions/StackOverflowPlatformDemo.java:44-52 | a new question is a fresh post with no votes, no answers and no comments, carrying the given tags |
| StackOverflow.Question.AddAnswer | questions/StackOverflowPlatformDemo.java:54-56 | appends exactly that answer and leaves the comments alone |
| StackOverflow.Question.AddComment | questions/StackOverflowPlatformDemo.java:58-60 | appends exactly that comment and leaves the answers alone |
| StackOverflow.Get | questions/StackOverflowPlatformDemo.java:152 | `getOrDefault(tag, emptyList())`: the list of a known tag, empty for any other |
| StackOverflow.IndexWith | questions/StackOverflowPlatformDemo.java:144-149 | `addQuestion` on the index, one `putIfAbsent` and append per tag; what it does is stated by `StackOverflow.IndexWithGet` and `StackOverflow.IndexWithKeys` |
| StackOverflow.Put | questions/StackOverflowPlatformDemo.java:146-147 | one pass of the loop: `putIfAbsent(tag, [])`, then `q` appended to that tag's list (stated by `StackOverflow.IndexWithGet`) |
| StackOverflow.IndexAll | questions/StackOverflowPlatformDemo.java:144-149 | the index a fresh repository holds after `addQuestion` of each posted question in order; `StackOverflow.QuestionRepository.AddQuestion` keeps the index equal to it and `StackOverflow.IndexAllGet` counts its lists |
| StackOverflow.OrderWith | questions/StackOverflowPlatformDemo.java:146 | the order in which tags first enter the map, each new tag appended (`StackOverflow.OrderWithFacts`) |
| StackOverflow.IndexWithGet | questions/StackOverflowPlatformDemo.java:144-149 | after `addQuestion(q)` each tag's list is its old list (empty for a new tag) followed by one copy of `q` per occurrence of the tag among q's tags; other tags' lists are unchanged |
| StackOverflow.IndexWithKeys | questions/StackOverflowPlatformDemo.java:144-149 | `addQuestion` creates a list for each new tag of `q` and for no other tag |
| StackOverflow.IndexAllGet | questions/StackOverflowPlatformDemo.java:144-153 | in the index built by the postings so far, each tag's list holds a question once per posting and per occurrence of the tag among its tags |
| StackOverflow.OrderWithFacts | questions/StackOverflowPlatformDemo.java:144-147 | the order in which tags first enter the index has no repeats, lists exactly the old and the new tags, and keeps the old order as a prefix |
| StackOverflow.FlattenLength | questions/StackOverflowPlatformDemo.java:155-161 | the concatenation of the tag lists is as long as all of them together |
| StackOverflow.Flatten | questions/StackOverflowPlatformDemo.java:155-161 | the tag lists in the given order, concatenated (`StackOverflow.FlattenLength`, `StackOverflow.AllQuestionsCount`) |
| StackOverflow.AllQuestionsCount | questions/StackOverflowPlatformDemo.java:155-161 | listing every tag's list once shows each question once per posting and per tag it carries (k times for k tags) |
| StackOverflow.Matches | questions/StackOverflowPlatformDemo.java:180-192 | the keyword test (the folded content contains the folded keyword) and the user test (the author's name equals the query ignoring case) |
| StackOverflow.Filter | questions/StackOverflowPlatformDemo.java:176-198 | the matching questions, in listing order; what it keeps and in what order is stated by `StackOverflow.FilterKeeps`, `FilterAppend` and `EmptyKeywordKeepsAll` |
| StackOverflow.FilterKeeps | questions/StackOverflowPlatformDemo.java:178-184 | a filtering search keeps each matching question as often as it was listed and drops every other question |
| StackOverflow.FilterAppend | questions/StackOverflowPlatformDemo.java:178-184 | filtering keeps the listing order: the result for a concatenation is the concatenation of the results |
| StackOverflow.EmptyKeywordKeepsAll | questions/StackOverflowPlatformDemo.java:176-186 | a keyword search for "" returns every listed question, in order |
| StackOverflow.QuestionRepository.constructor | questions/StackOverflowPlatformDemo.java:141-142 | a new repository has no tags and no postings |
| StackOverflow.QuestionRepository.AddQuestion | questions/StackOverflowPlatformDemo.java:144-149 | the loop moves the index as `IndexWith` says and the tag order as `OrderWith` says, and keeps the index equal to the one built from all postings |
| StackOverflow.QuestionRepository.GetQuestionsByTag | questions/StackOverflowPlatformDemo.java:151-153 | an unknown tag yields the empty list; every listed question was posted and carries the tag, once per posting and per occurrence of the tag |
| StackOverflow.QuestionRepository.GetAllQuestions | questions/StackOverflowPlatformDemo.java:155-161 | the loop returns all tag lists concatenated; each question appears once per posting and per tag, and the length is the sum of the lists' lengths |
| StackOverflow.QuestionRepository.AllQuestions | questions/StackOverflowPlatformDemo.java:155-161 | the result of `getAllQuestions`: the lists of `tagOrder` concatenated; `StackOverflow.QuestionRepository.GetAllQuestions` computes it and states its counts and length |
| StackOverflow.FilterLoop | questions/StackOverflowPlatformDemo.java:178-184 | the loop returns `Filter` of its input |
| StackOverflow.FilterSearch | questions/StackOverflowPlatformDemo.java:176-198 | a keyword or user search returns `Filter` of `getAllQuestions` |
| StackOverflow.Search | questions/StackOverflowPlatformDemo.java:166-198 | the tag search equals `getQuestionsByTag`; the keyword search keeps the questions whose folded content contains the folded keyword; the user search keeps those whose author name equals the query ignoring case |
| StackOverflow.StackOverflowPlatform.constructor | questions/StackOverflowPlatformDemo.java:202-206 | a new platform owns a fresh, empty repository |
| StackOverflow.StackOverflowPlatform.PostQuestion | questions/StackOverflowPlatformDemo.java:215-218 | a fresh question with that content, author and tags, with no votes, is posted and indexed under its tags |
| StackOverflow.StackOverflowPlatform.SearchQuestions | questions/StackOverflowPlatformDemo.java:220-222 | delegates to the strategy, with the results `Search` states |

## Left out

- `main` methods, every `System.out.println` and `checkAvailability` (lines 99-107 of the library file): console output only.
- `DisplayBoard.update`: observers are opaque identities. Each `update(total)` call is recorded as an `Update` value in `ParkingLot.updates`.
- `Car`/`MotorCycle.type()`: the vehicle is a tag (`VehicleType`), since the vehicle classes only print.
- `VehicleFactory`: its products only print, so the model takes the tag directly.
- `ParkCommand`/`ExitCommand`: modelled as `Command` values and `Run` without their printing, not as objects.
- `PostFactory`: its three methods only call the constructors, which are modelled.
- `ParkingLot.getInstance`/`StackOverflowPlatform.getInstance`: singletons are replaced by explicitly constructed objects.
- `synchronized`, `ConcurrentHashMap`: the model is sequential.
- `Date createdAt`: a wall-clock read, never used by the logic.
- The strategy interfaces (`SpotAssignmentStrategy`, `SearchStrategy`): only the implementations in the source are modelled. The three search strategies are a datatype; the parking lot always uses the first-available strategy.
- `IBookRepository`/`BorrowPolicy`: the service uses the concrete repository. The rule is a function of snapshots of the user's and the book's counters, so a rule with side effects is not modelled.
- Null arguments (a null vehicle, user, book, tag or content) and the exceptions they raise: strings and references are non-null here.
- Java `int` overflow: all counters are unbounded integers.
- Getters (`getVotes`, `getContent`, `getAuthor`, `getAnswers`, `getComments`, `getTags`, `getName`, `getReputation`, `getRepository`): fields are read directly.
- Aliasing of mutable Java lists: the list `getQuestionsByTag` returns is the stored list, and a question keeps the caller's tags list. Both are values here, so later mutation through those aliases is not modelled.
- StackOverflow.QuestionRepository.GetAllQuestions: `ConcurrentHashMap` iteration order (`questions/StackOverflowPlatformDemo.java:142`) is unspecified, so the model fixes it as the order in which tags were first added (`tagOrder`). The counting lemmas do not depend on that choice.
- Text.LowerChar: folds ASCII letters only; locale-sensitive Unicode case mapping is not modelled.
- Text.EqualsIgnoreCaseFacts: Java's `equalsIgnoreCase` also compares upper-cased characters; on ASCII this agrees with comparing lower-cased ones, and non-ASCII folding is not modelled.
