# A verified model of Remind's algorithms

Remind is a calendar and alarm program with a language of its own: reminders,
expressions with user-defined functions, IF blocks, included files, and days to
be left out.  This project models the parts of it whose correctness cannot be
seen from one function, and proves what they promise.

| Files | Repository | Subject |
|---|---|---|
| Gregorian, HebrewYear, ObservanceSearch, HebrewDate, Easter | src/main.c, src/hbcal.c, src/funcs.c | day numbers, the Hebrew calendar and its search for the next observance, Easter |
| Bytes, Decimals, ExprLex, Expr, ExprParse, ExprParser, ExprRender, ExprSpell | src/expr.c | tokens, the grammar, the parser with its shared buffer, printing and parsing back |
| ExprEval, Evaluator, OperatorLaws, ExprValues, Taint, Folding | src/expr.c, src/funcs.c | the evaluator, its lazy built-ins, laws of the operators, from texts to values, the non-constant flag, constant folding |
| Json, JsonPasses, JsonTree, JsonText, JsonNames, JsonParser | src/json.c | the two passes of the JSON parser, the tree they build, and its strings and names |
| JsonValues, JsonNumbers, JsonSteps, JsonAccept, JsonDocument | src/json.c | the values of JSON, which of their texts are accepted, and what is made of them |
| Escape | src/funcs.c, src/calendar.c | two printers against the parsers that undo them |
| HashTable, Dedupe | src/hashtab.c, src/dedupe.c | the chained hash table, the cost of its resizes, a client |
| Md5 | src/md5.c | buffering, counting and padding of RFC 1321 |
| Omit, OmitLaws, Slide | src/omit.c, src/funcs.c, src/dorem.c | the store of omitted days, and three loops that count days not omitted |
| IfElse, Reader | src/ifelse.c, src/main.c, src/files.c | the IF stack across included files |
| TrigSearch | src/dorem.c | the marking search through expression trees and function bodies |

Where the original changes state in place (the hash table, the MD5 context, the
OMIT arrays, the IF stack, the shared token buffer, the JSON cursor, the globals
of the evaluator) the model does too: a class or an array, and methods proved
against functions on values.  The theorems are lemmas about those functions.

Those functions are themselves held to accounts that do not share their formulas:
Easter to the moon of Gauss and to tables, missing Hebrew dates to the nearest
valid day on either side, the operators to laws between them (OperatorLaws) and to
texts whose value is plain arithmetic (ExprValues), numbers in texts to division
by ten, JSON texts to a datatype of values and the function that writes them
(JsonValues), OMIT to the dates it names (OmitLaws).

## What the proofs say that the code does not

- The next Hebrew date is found for every valid date and every start in Hebrew
  years 5751 to 9731.  A start in 5750 of a date that exists in that year answers
  E_DATE_OVER, because the conversion refuses years before 5751
  (src/hbcal.c:230), and so may one just before the last year it accepts.
  GetNextHebrewDate says exactly when; TenthOfTevetMissed is an instance.
- The flat IF machine is the structured interpreter exactly as long as no IFTRIG
  that is reached fails to parse: such a line returns before anything is pushed
  (src/main.c:1321-1322), so its block runs and its ENDIF closes another IF, or none.
- A forward slide() is not always finite.  The test for seven omitted weekdays
  (src/funcs.c:4538) looks at no step; with steps of a week one omitted weekday
  is enough.  ForwardEnds gives the exact condition, MondaysForever an instance;
  CheckIsExact says where the test is all that is needed.
- The delta loop can run out of rounds although the delta would have been met
  (src/dorem.c:1982-1999); the contract of ShouldTriggerReminder says when.
- The comment on shrinking the hash table speaks of a load below 1
  (src/hashtab.c:340); the code shrinks below one half, and the account of what
  resizing costs depends on it.
- The halves of a surrogate pair are put together with OR where an addition is
  meant (src/json.c:350): a character is misread exactly if bit 6 of the first
  half is set, so that U+20000 becomes U+10000.  EveryString says what becomes of
  whole strings.
- A JSON number too large for an integer becomes a floating point number in the
  middle of its digits, and is then refused if a point follows, because the point
  is only taken by integers (src/json.c:814).  EveryValue says that all other
  values of JSON are accepted; LargeFraction is an instance.
- In a string of an expression, the escape of a NUL byte is answered with E_NO_MEM,
  and a string of nothing but escapes needs no closing quote
  (src/expr.c:1658-1736; UnclosedAccepted).
- const() clears the flag not only of its argument but of all that was evaluated
  before it, so that x + const(1) counts as constant (src/expr.c:582); isconst()
  and, through its text, eval() can hide a variable too, and a missing variable
  does by omission (src/expr.c:447-451).  EvalSound holds for every evaluation on
  which neither of the two has hidden anything, and states that define the same
  names; ConstLaunders, ConstClearsAll,
  EvalLaunders, IsconstTells and MissingUnmarked show why.
- The limit on the depth of expressions is compared only with depths never reached
  before (src/expr.c:175), so that an expression that is refused is accepted when
  it is tried again (RefusedThenAccepted).
- ord() with a function ordx adds to the flag a variable that nothing has set to
  clear (src/funcs.c:1317-1336).
- Constants folded by the parser are never felt in values, but they save nodes, so
  that an expression may just fit under the limit of nodes (LimitIsFelt).

## Model

| member | source | states |
|---|---|---|
| Gregorian.DSEInverse | src/main.c:504-515 | on valid dates DSE is an order isomorphism onto the day numbers, and turning that many pages of the calendar gives the date back |
| Gregorian.DSEOfDateAt | src/main.c:504-566 | DSE of the n-th page of the calendar is n, for every n >= 0 |
| Gregorian.DSEIsDayNumber | src/main.c:504-515 | the closed formula counts the days of all years, months and days before the date |
| Gregorian.FromDSE | src/main.c:524-566 | the year search and the month loop find the n-th page of the calendar, and stop inside their tables |
| Gregorian.JulianToGregorianOffset | src/main.c:568-584 | the offset is the number of century days dropped by the Gregorian calendar |
| Gregorian.JulianOffsetCorrect | src/main.c:568-584 | adding the offset to a Julian date read as Gregorian gives its true day number |
| HebrewYear.DaysToHebYear | src/hbcal.c:146-169 | the arithmetic of the original is the molad day put off by the four rules, for every year from 3744 on |
| HebrewYear.NewYearWeekday | src/hbcal.c:129-169 | Rosh Hashana is never a Sunday, Wednesday or Friday |
| HebrewYear.YearLengths | src/hbcal.c:119-186 | a year has 353 to 355 days, or 383 to 385 exactly if the leap table says so |
| HebrewYear.CyclePosition | src/hbcal.c:119-169 | the leap table and the count of leap months describe the same 19-year cycle |
| HebrewYear.MonthTable | src/hbcal.c:196-211 | where the months begin; the thirteen lengths fill the year exactly |
| HebrewYear.CycleSpan | src/hbcal.c:129-169 | any 19 consecutive years span at least 6937 days |
| HebrewYear.CompleteYear | src/hbcal.c:146-211 | any 19 consecutive years contain one with a 30-day Heshvan (pigeonhole) |
| HebrewDate.KnownNewYears | src/hbcal.c:129-169 | Rosh Hashana of 5765, 5766, 5784, 5785, 5790 and 5791 in the civil calendar: each rule of postponement is met, and none |
| HebrewDate.HebDayInjective | src/hbcal.c:222-281 | different valid Hebrew dates have different day numbers |
| HebrewDate.GuessNotTooLow | src/hbcal.c:255-265 | the Gregorian year plus 3763 is never too low a first guess |
| HebrewDate.HebrewCalendar.DaysInHebMonths | src/hbcal.c:196-211 | the shared table of month lengths after the call is that of the year asked for |
| HebrewDate.HebrewCalendar.HebToDSE | src/hbcal.c:222-244 | the day number of the Hebrew date in the accepted years, and -1 in all others |
| HebrewDate.HebrewCalendar.DSEToHeb | src/hbcal.c:255-281 | the valid Hebrew date whose day number is given; both loops stop inside their tables |
| HebrewDate.HebrewCalendar.GetValidHebDate | src/hbcal.c:383-471 | the observance of a date in a year, with its Adar flag, or that there is none; no other branch is reached. What the observance is, is said by OrdinaryDate, AdarDate, MissingKept and MissingAdarA |
| HebrewDate.HebrewCalendar.GetNextHebrewDate | src/hbcal.c:483-530 | terminates; an OK answer is the least observance on or after the start; exactly when E_DATE_OVER is answered instead, including starts in Hebrew year 5750 |
| HebrewDate.OrdinaryDate | src/hbcal.c:383-471 | a date that its year has is observed as it is |
| HebrewDate.AdarDate | src/hbcal.c:383-405 | dates in Adar: in a leap year in Adar A or Adar B as is asked for, in another in Adar |
| HebrewDate.MissingThirtieth | src/hbcal.c:407-471 | a 30th that the year does not have: under rule 1 it is kept on the least valid day after it, and that is the first of a month, under rule 2 on the greatest valid day before it; by name 1 Kislev, 1 Tevet, 1 Nisan against 29 Heshvan, 29 Kislev, 30 Shvat |
| HebrewDate.MissingAdarA | src/hbcal.c:407-471 | days 1 to 29 of an Adar A that the year does not have are kept on the same day of Adar B under both rules |
| HebrewDate.OnlyMissing | src/hbcal.c:407-471 | no other dates can be missing |
| HebrewDate.HeshvanOf5784 | src/hbcal.c:422-431 | an instance: 30 Heshvan 5784 is kept on 14 November 2023 under rule 1 and on 13 November under rule 2 |
| HebrewDate.KeptWithin19 | src/hbcal.c:383-530 | every valid date is observed at least once in any 19 consecutive years |
| HebrewDate.AlwaysKept | src/hbcal.c:483-530 | from starts in the years 5751 to 9731 there always is an answer |
| HebrewDate.TenthOfTevetMissed | src/hbcal.c:222-230 | an instance: 10 Tevet 5750, six days after the start, is missed |
| ObservanceSearch.SearchStep | src/hbcal.c:483-530 | one turn of the search keeps what it knows: everything tried, and everything earlier, was too early |
| ObservanceSearch.SearchFound | src/hbcal.c:483-530 | the first observance that is in time is the least one in time |
| Easter.EasterOfYear | src/funcs.c:3433-3454 | the loop body computes the first Sunday after the Paschal full moon of the year; MoonIsGauss and MoonTable say which that is |
| Easter.MoonIsGauss | src/funcs.c:3434-3443 | in every year the full moon of the original is that of Gauss: 11 days earlier each year of the 19, moved by the corrections of each century, with his two exceptions |
| Easter.MoonTable | src/funcs.c:3434-3443 | the nineteen full moons of 1900 to 2199, written out |
| Easter.KnownEasters | src/funcs.c:3433-3454 | Easter of 2008, 2022, 2024 and 2038 |
| Easter.EasterDay | src/funcs.c:3433-3454 | Easter is a Sunday from 22 March to 25 April |
| Easter.EasterIsTheSunday | src/funcs.c:3433-3454 | no other day is the first Sunday after the Paschal full moon |
| Easter.FEasterdate | src/funcs.c:3413-3457 | with a date: the first Easter on or after it, found within two years; without: Easter of the year |
| Easter.OrthodoxOfYear | src/funcs.c:3485-3499 | the Meeus formula and the Julian offset give Orthodox Easter |
| Easter.JulianMoonTable | src/funcs.c:3486-3491 | the nineteen full moons of the Julian calendar, written out |
| Easter.OrthodoxIsSunday | src/funcs.c:3485-3499 | Orthodox Easter is the first Sunday after the full moon of that table, in the Julian calendar |
| Easter.FOrthodoxeaster | src/funcs.c:3466-3503 | with a date: the first Orthodox Easter on or after it |
| Md5.MD5Context.Update | src/md5.c:59-101 | any chunk extends the message taken in: state, 64-bit count with carry, and buffered bytes are those of the longer message |
| Md5.MD5Context.Final | src/md5.c:107-146 | the digest of the padded message of RFC 1321 sections 3.1 and 3.2, in the one-block and the two-block case |
| Md5.DigestOfChunks | src/md5.c:44-146 | feeding any chunks gives the one-shot digest of their concatenation |
| Md5.PaddingUnambiguous | src/md5.c:107-135 | below 2^61 bytes, messages with equal padded forms are equal |
| Md5.CountUp | src/md5.c:65-69 | the two count words and their carry hold the number of bits modulo 2^64 |
| Md5.DecodeEncode | src/md5.c:22-41 | words written low-order byte first are read back |
| Md5.StartBytes | src/md5.c:44-53 | the four start words, byte for byte in the order of RFC 1321, section 3.3 |
| HashTable.Table.Insert | src/hashtab.c:261-285 | the item joins the set; the table grows exactly when it has more than two items a bucket and memory can be had; every item stays once in the chain of its cached hash |
| HashTable.Table.Find | src/hashtab.c:296-313 | an item with an equal key is found exactly if there is one |
| HashTable.Table.Delete | src/hashtab.c:325-383 | the item leaves the set, or -1 if it was not there; the table shrinks exactly when it is less than half full, may resize and gets memory; without resizing the other items keep their order |
| HashTable.Table.Resize | src/hashtab.c:203-247 | all items move to the next size, each once into the chain of its cached hash; if memory cannot be had nothing changes |
| HashTable.Table.Next | src/hashtab.c:408-428 | the successor in the listing of all chains |
| HashTable.FlatIsItems | src/hashtab.c:408-428 | the listing meets every item exactly once, so the number of entries is the total length of the chains |
| HashTable.MoveNext | src/hashtab.c:234-240 | relinking one item during a resize leaves what follows it untouched |
| HashTable.RunIsCheap | src/hashtab.c:261-371 | in any run from an empty table, if memory can be had, all resizes together move at most 3 items for each insert and 2 for each delete, and below the last size the load is at most 2 |
| HashTable.OpIsPaid | src/hashtab.c:261-371 | every insert and delete pays for the resize it may cause out of what has been saved up since the last one |
| Dedupe.DedupeTable.ShouldDedupe | src/dedupe.c:123-132 | answers whether the very same reminder was asked about before, and remembers it |
| Dedupe.DedupeTable.Clear | src/dedupe.c:142-155 | deleting while walking frees every entry exactly once and leaves the store empty |
| Dedupe.FlatDropFirst | src/dedupe.c:145-151 | deleting the entry at the front leaves the rest of the walk as it was |
| Dedupe.HashIsSmall | src/userfns.c:70-83 | text hashes keep their top four bits clear |
| SortedArrays.BexistsIntArray | src/omit.c:263-274 | bisection finds a key exactly if it is there |
| SortedArrays.InsertIntoSortedArray | src/omit.c:284-294 | the key is inserted in place at its position, and the array stays strictly sorted |
| Omit.RoomForCode | src/omit.c:456-465 | a yearly day that is not stored finds room among 366 (pigeonhole), though nothing checks the bound |
| Omit.OmitStore.OmitYearly | src/omit.c:449-477 | the cyclic walk terminates and stores exactly the days from one to the other, across the end of the year if need be |
| Omit.StoreDaysFits | src/omit.c:489-495 | storing a range succeeds exactly if old and new days together fit into 1000; then exactly those are stored; else the store is full |
| Omit.OmitStore.DoOmit | src/omit.c:403-499 | the storing half of OMIT does what the command asks for, or refuses it with the right error |
| OmitLaws.OmitsWhatIsNamed | src/omit.c:403-499 | if OMIT succeeds, the days omitted from then on are those that were and those it names by weekday, by date or by span, across the end of the year if need be; if it fails for another reason than want of room nothing changes |
| Omit.OmitStore.AddGlobalOmit | src/omit.c:504-515 | adds a day; a full store refuses even a day it has |
| Omit.OmitStore.IsOmitted | src/omit.c:200-253 | without OMITFUNC the answer is membership in the omit set; with it, what the function says, and nothing else is looked at |
| Omit.OmitStore.Execute | src/omit.c:57-190 | every command changes the store as the abstract step says, and keeps both arrays strictly sorted and within bounds |
| Omit.PushPopRestores | src/omit.c:116-190 | whatever happens between a PUSH and the matching POP, the omit set and the stack come back exactly |
| Omit.SomeWeekdayFree | src/omit.c:403-411 | after any run of commands there is a weekday that is not omitted |
| Slide.FSlide | src/funcs.c:4509-4558 | a slide lands on a day that is not omitted and has the given number of days not omitted up to it, forward or backward; exactly when each error is answered, E_2MANY_LOCALOMIT among them |
| Slide.FNonomitted | src/funcs.c:4561-4607 | the number of days not omitted, in either order of the dates |
| Slide.LandsOnce | src/funcs.c:4539-4545 | there is only one forward landing |
| Slide.LandsBackOnce | src/funcs.c:4546-4553 | there is only one backward landing |
| Slide.SlideBack | src/funcs.c:4539-4553 | from a day that is not omitted, sliding forward and back leads home, and nowhere else |
| Slide.ForwardEnds | src/funcs.c:4538-4545 | the forward loop ends, whatever the amount, exactly if one of the next 146097 steps is free of recurring omissions |
| Slide.AllWeekdaysOmitted | src/funcs.c:4538 | the check for seven omitted weekdays stops no slide that could end |
| Slide.CheckIsExact | src/funcs.c:4538-4545 | where only weekdays are omitted and steps are not of whole weeks, that check stops exactly the slides that would not end |
| Slide.MondaysForever | src/funcs.c:4538-4545 | a slide that passes the check for seven omitted weekdays and never ends |
| Slide.CalendarRepeats | src/main.c:524-566 | the calendar repeats after 146097 days |
| Slide.ShouldTriggerReminder | src/dorem.c:1902-2005 | the delta loop triggers exactly if fewer than delta days from tomorrow on are not omitted; E_CANT_TRIG exactly if the rounds run out first |
| Slide.SlideMeetsDelta | src/dorem.c:1981-1994 | the day a slide of n lands on is within a delta exactly if n is |
| Slide.RoundsCanRunOut | src/dorem.c:1982-1999 | the rounds can run out although the delta would have been met |
| IfStack.IfTable.PushIf | src/ifelse.c:63-75 | an entry is pushed in the current file, or E_NESTED_IF; other files' entries are untouched |
| IfStack.IfTable.EncounterElse | src/ifelse.c:95-107 | the innermost IF of the file passes its ELSE once, else E_ELSE_NO_IF |
| IfStack.IfTable.EncounterEndif | src/ifelse.c:129-137 | the innermost IF of the file is closed, else E_ENDIF_NO_IF |
| IfStack.IfTable.ShouldIgnoreLine | src/ifelse.c:177-192 | a line is ignored exactly after a RETURN or inside a branch of the file that is not taken |
| IfStack.IfTable.InConstantContext | src/ifelse.c:200-210 | the context is constant exactly if every open IF of every file is |
| IfStack.IfTable.PopExcessIfs | src/ifelse.c:220-236 | at the end of a file its IFs and its RETURN are forgotten, and nothing else |
| Lines.FlatIsStructured | src/main.c:353-361 | for every well-nested program of depth at most 64 the flat machine meets exactly the lines, with the same flags, that a recursive interpreter does |
| Lines.FlatIsStructuredIff | src/main.c:1305-1348 | they agree exactly if no IFTRIG that is reached is unparsable |
| Lines.UncleanDiffers | src/main.c:1321-1322 | once an unparsable IFTRIG is reached the machine and the interpreter part for good |
| Lines.UnparsableIfTrig | src/main.c:1321-1322 | the block of an unparsable IFTRIG runs, and its ENDIF closes nothing |
| Lines.RunConcat | src/main.c:344-362 | running lines and then more lines is running all of them |
| Files.FinishChain | src/files.c:697-743 | running the files of an INCLUDE and then going on is one run; the including file's IF state is its own |
| Reader.Reader.PopFile | src/files.c:717-747 | at the end of a file, in whatever state, the including file gets back its lines and its IF state |
| Reader.Reader.IncludeFile | src/files.c:1196-1279 | an included file starts with an IF state of its own; too deep, or unopenable, it leaves files, lines and IF state as they were |
| Reader.Reader.DoLine | src/main.c:353-420 | each line does what the flat machine says, and touches no other file's IFs |
| Reader.Reader.DoReminders | src/main.c:337-362 | the loop over all lines of all files terminates and meets the lines the recursive definition says |
| JsonSecondPass.TwoPasses | src/json.c:280-944 | the first pass answers on every text; if it accepts, the second accepts too, finds room for every string, name, item and member, leaves no cell unfilled, and uses up the value list in order |
| JsonFirstPass.FirstPassEnds | src/json.c:316-941 | the first pass terminates on every text and never follows a pointer that is not there |
| JsonCounts.RunCounts | src/json.c:316-941 | what has been counted at any point is never more than what is counted in the end, and a value being read will be one more in the value around it |
| JsonSecondPass.NumberSkip | src/json.c:660-690 | the number automaton of the first pass and the skipping of the second end at the same character |
| JsonSecondPass.PairStep | src/json.c:316-941 | one turn of the second pass corresponds to one or more of the first, and both are in the same state again |
| JsonSecondPass.RunSim | src/json.c:316-941 | from corresponding states the second pass accepts whenever the first does, and strings that have ended are not written again |
| JsonSecondPass.StringIsDecoded | src/json.c:326-452 | from any two corresponding states of the passes on, a string value that begins holds in the end exactly the bytes that its text stands for to the parser, and a NUL |
| JsonText.EveryString | src/json.c:326-452 | every string value of an accepted text holds the bytes that its text stands for to the parser; they are those that it means by section 7 of RFC 8259 exactly if no surrogate pair is misread |
| JsonText.ReadAsMeant | src/json.c:316-452 | a string with a meaning is read to its end, and as it is meant exactly if no pair is misread |
| JsonText.PairRead | src/json.c:330-350 | a surrogate pair is read as the character it stands for exactly if bit 6 of its first half is clear |
| JsonText.PairMisread | src/json.c:350 | an instance: U+20000 is read as U+10000 |
| JsonText.HexRead | src/json.c:63-77 | four hexadecimal digits in either case are read as the number they write |
| JsonText.Utf8Encodes | src/json.c:353-392 | a code point is encoded as RFC 3629 says, in as few bytes as it needs |
| JsonNames.NameIsDecoded | src/json.c:326-470 | from any two corresponding states of the passes on, a name that begins is, in the key area of the result, what its text stands for, and is not written to again |
| JsonNames.EveryName | src/json.c:326-470 | every name of every object of an accepted text holds the bytes that its text stands for to the parser; they are those that it means exactly if no surrogate pair is misread |
| JsonTree.ResultIsTree | src/json.c:122-216 | the result is a tree: the slots of each array and object hold exactly the values whose parent it is, in the order of the text |
| JsonDocument.EveryValue | src/json.c:303-944 | a value of JSON with any white space, within the counters, is accepted exactly if no number too large for an integer goes on with a fraction; the list made of it represents the value: kinds, truth values, integers, strings, items in order, each name with its own value, and nothing else |
| JsonDocument.LargeFraction | src/json.c:814 | an instance: 9223372036854775808 is accepted, and with .5 behind it refused |
| JsonAccept.ReadValue | src/json.c:316-941 | from wherever a value is expected both passes read it to its end and leave what was there before as it was; or it is not Readable, and the text is refused |
| JsonAccept.ReadItems | src/json.c:545-570 | the items of an array, with commas between them |
| JsonAccept.ReadMembers | src/json.c:712-751 | the members of an object: name, colon, value, and a comma before the next |
| JsonNumbers.NumberWalk | src/json.c:755-873 | a number: with digits only an integer, its value that of its decimal digits, if it fits; else floating point; or refused |
| JsonAccept.ReadNumber | src/json.c:660-690 | both passes are behind the number together |
| JsonSteps.RunStay | src/json.c:316-941 | the second pass changes no integer, and no truth value that it has read |
| JsonSteps.DecodeLocal | src/json.c:316-452 | a string stands for the same bytes wherever it is written |
| JsonValues.ContentsMeant | src/json.c:350 | a string is represented as it is meant exactly if no pair of surrogates in it is misread |
| JsonParser.Parser.Turns | src/json.c:316-941 | one turn of the loop, on the parser's variables, is the step; it touches only cells that exist |
| JsonParser.Parser.CountPass | src/json.c:303-941 | the first pass as a loop |
| JsonParser.Parser.FillPass | src/json.c:303-944 | the second pass as a loop; it never fails |
| JsonParser.JsonParse | src/json.c:987-991 | accepts what the first pass accepts, and answers what the second makes of it, a tree with everything filled, to which EveryString and EveryName apply. A text that is a value of JSON is accepted exactly if that is Readable, and the answer represents it. A byte order mark is skipped |
| JsonPrint.PrintJSONString | src/calendar.c:412-433 | the printed form, character by character |
| JsonPrint.PrintedDecodes | src/calendar.c:412-433 | in any text, the printed form and a closing quote mean the string |
| JsonPrint.PrintRoundTrip | src/calendar.c:412-433 | the quoted printed form of a NUL-free string is accepted by the parser, and the string is its only value |
| ExprLex.Lexer.ParseExprToken | src/expr.c:1599-1797 | the loops read the token, or answer the error, that the definition says |
| ExprLex.StringAccepted | src/expr.c:1658-1736 | a string token is accepted exactly if it is closed by a quote, or is all escapes to the end of the text |
| ExprLex.UnclosedAccepted | src/expr.c:1658-1736 | an instance: a quote and an escaped n at the end of the text |
| Escape.FEscape | src/funcs.c:3236-3312 | the escaped form, character by character |
| Escape.EscapeRoundTrip | src/funcs.c:3236-3312 | what escape() prints with quotes is one token wherever it stands, and its value is the string |
| Escape.StringRoundTrip | src/expr.c:1658-1736 | an escaped string and a closing quote are read back, whatever follows |
| ExprParser.Parser.ParseBinary | src/expr.c:2448-2727 | with the shared buffer, each level of binary operators parses what the grammar says, leaves the next token in the buffer, and keeps exactly the nodes of its result |
| ExprParser.Parser.ParseRest | src/expr.c:2464-2494 | the loops over operators group to the left |
| ExprParser.Parser.ParseUnary | src/expr.c:2382-2435 | unary operators, with folding of integer constants |
| ExprParser.Parser.ParseAtomic | src/expr.c:2298-2369 | parentheses, calls, constants and variables, with their errors; what literals and names are worth is said by NumberParsed, StringParsed, NameParsed and SysVarParsed |
| ExprParser.Parser.ParseFunctionCall | src/expr.c:1956-2066 | calls, with arguments and arities; a failed call gives back all of its nodes |
| ExprParser.Parser.ParseAll | src/expr.c:2733-2813 | a whole expression up to the end of the text or a closing bracket |
| ExprParse.ParseLevel | src/expr.c:2448-2727 | a successful parse consumes at least one token and stays in the text, so the recursion terminates |
| ExprRender.ParsesBack | src/expr.c:2298-2727 | an expression written with only the parentheses it needs is parsed to its tree at every level, or refused exactly if it is too deep |
| ExprRender.ReachesRest | src/expr.c:2464-2494 | the loop of a level is reached with all of the left operand parsed, unless that is too deep |
| ExprRender.ParseRendered | src/expr.c:2733-2813 | the same for whole texts, with any white space: the tree, the end of the text and the new high-water mark, or E_OP_STK_OVER exactly if the depth is above both the limit and the old mark |
| ExprSpell.WrittenParsesBack | src/expr.c:2298-2813 | print and parse: any expression, written as a text with only the parentheses it needs, is parsed to its tree, and nothing of the text is left; or it is refused, exactly if it is deeper than the limit and than anything before |
| ExprSpell.RefusedThenAccepted | src/expr.c:174-175 | an instance: 1994 minus signs are refused at first, and accepted when tried again |
| ExprSpell.SpellingRead | src/expr.c:1599-1797 | tokens written with a space between any two, strings with their escapes, are read back one by one |
| ExprParser.MakeNode | src/expr.c:2239-2286 | the loop over the parameters of the function, and the cases behind it |
| ExprParser.SetConstant | src/expr.c:2075-2231 | the loop over the digits of a number, and the other constants |
| ExprValues.NumberParsed | src/expr.c:2161-2170 | the decimal digits of n, with any zeros before them, are parsed to the constant n for every n up to the largest int; above, to none that is not looked up |
| ExprValues.StringParsed | src/expr.c:1658-1736 | a string, however it is escaped, is parsed to the constant with its bytes |
| ExprValues.NameParsed | src/expr.c:2239-2265 | the name of a parameter, told apart by 64 characters of any case, is parsed to its index; any other to a variable of its first 64 characters |
| ExprValues.SysVarParsed | src/expr.c:2267-2277 | a name with a dollar sign is parsed to the system variable, or is an error |
| ExprValues.FunctionNamed | src/expr.c:1970-1989 | a function that is not built in is known by 64 characters of its name; case counts for neither kind |
| ExprValues.Grouping | src/expr.c:2448-2727 | of two operators the stronger takes its operands first, of equal ones the left; for all pairs of the thirteen, in order of strength |
| ExprValues.Calculated | src/expr.c:1101-1260 | from the text to the value: n + m and n - m |
| ExprValues.Multiplied | src/expr.c:1324-1484 | from the text to the value: n * m, n / m and n % m, with their errors |
| ExprValues.Compared | src/expr.c:1046-1098 | from the text to the value: the six comparisons |
| ExprValues.Decided | src/expr.c:1538-1590 | from the text to the value: && and || have the value of the operand that decides |
| ExprValues.Signed | src/expr.c:2382-2435 | -n, +n and !n are parsed to constants |
| ExprValues.ShortCut | src/expr.c:1538-1570 | what && and || do not need they do not evaluate |
| ExprEval.Eval | src/expr.c:867-952 | evaluation terminates for every tree and every table of user functions, eval() included, and puts back recursion level, RunDisabled and the current function, on success and on error; a refusal because of the limit of nodes comes only at the limit. What operators and functions compute is said by the laws of OperatorLaws and ExprValues |
| ExprEval.EvalUser | src/expr.c:685-806 | the same through calls of user functions |
| ExprEval.EvalEval | src/funcs.c:4678-4702 | the same through eval(), which parses its argument and evaluates it one level deeper with a flag of its own |
| OperatorLaws.SumUndone | src/expr.c:1101-1318 | a sum minus one operand is the other, for all kinds that can be added |
| OperatorLaws.DifferenceUndone | src/expr.c:1236-1318 | the difference of two days or moments, added to the earlier, gives the later |
| OperatorLaws.TimesApart | src/expr.c:1289-1312 | between two times there is less than a day, and adding it leads from one to the other |
| OperatorLaws.SumSteps | src/expr.c:1101-1230 | adding nothing changes nothing, adding one more gives the next day, minute or number; midnight follows 23:59 |
| OperatorLaws.SumFits | src/expr.c:1101-1318 | sums and differences fail exactly if they do not fit an int, or go before the first day |
| OperatorLaws.Joined | src/expr.c:1183-1222 | a sum with a string is the two strings, one behind the other, unless that is too long |
| OperatorLaws.Trichotomy | src/expr.c:983-1098 | of less, equal and greater exactly one holds, and the other three comparisons are their negations |
| OperatorLaws.ComparedByDifference | src/expr.c:983-1318 | numbers, days and times compare as the sign of their difference says |
| OperatorLaws.DifferentKinds | src/expr.c:983-1040 | values of different kinds are not equal, and cannot be ordered |
| OperatorLaws.Dictionary | src/expr.c:1000-1040 | strings are ordered by the first byte in which they differ, and the shorter first |
| OperatorLaws.StrTransitive | src/expr.c:1000-1040 | the order of strings is transitive; it is total by Trichotomy |
| OperatorLaws.Products | src/expr.c:1324-1350 | products commute, fit or fail, and grow by one factor at a time |
| OperatorLaws.Quotients | src/expr.c:1429-1465 | a == b * q + r with |r| < |b| and the sign of a; zero and the one overflow are errors |
| OperatorLaws.QuotientUnique | src/expr.c:1429-1465 | no other quotient and remainder do that |
| OperatorLaws.Repetition | src/expr.c:1352-1420 | n times a string has n times its length, and at every place the byte of the endless repetition |
| OperatorLaws.NoSuchOperation | src/expr.c:1101-1465 | which kinds cannot be combined |
| OperatorLaws.Twice | src/expr.c:1510-1533 | two minuses are none |
| OperatorLaws.IifTakes | src/funcs.c:2844-2920 | iif() has the value of the argument behind its first true condition, by index |
| OperatorLaws.IifElse | src/funcs.c:2844-2920 | or of its last argument, if no condition is true |
| OperatorLaws.IsAnyFinds | src/funcs.c:1644-1706 | isany() is 1 at the first later value that equals the first, by index |
| OperatorLaws.IsAnyFindsNone | src/funcs.c:1644-1706 | and 0 if none does |
| OperatorLaws.ChooseTakes | src/funcs.c:1789-1849 | choose(k, ...) is argument k; the first below 1, the last above their number |
| OperatorLaws.CatchCatches | src/funcs.c:1716-1767 | catch() has the value of its first argument, or else that of the second with the error remembered |
| OperatorLaws.ValueIsVariable | src/funcs.c:2026-2112 | value() of a name is the variable of that name, or else its second argument |
| OperatorLaws.ParameterValue | src/expr.c:685-806 | a parameter of a user function has the value of its argument |
| Evaluator.Evaluator.EvaluateExprNode | src/expr.c:867-952 | the evaluator with its global variables does what the definition says, and so obeys the laws of OperatorLaws and ExprValues |
| Evaluator.Evaluator.CallUserFunc | src/expr.c:685-806 | a call of a user function, with the globals it changes and puts back |
| Evaluator.Evaluator.CallBuiltin | src/expr.c:478-611 | a call of a built-in function, old style, eval() or new style |
| Evaluator.Evaluator.FEval | src/funcs.c:4678-4702 | eval() with RunDisabled changed and put back, and its own flag joined to that of the caller |
| Evaluator.Evaluator.FIif | src/funcs.c:2844-2920 | iif() evaluates conditions in order and one value |
| Evaluator.Evaluator.FIsAny | src/funcs.c:1644-1706 | isany() stops at the first equal value |
| Evaluator.Evaluator.FChoose | src/funcs.c:1789-1849 | choose() evaluates the index and one value |
| Evaluator.Evaluator.FCatch | src/funcs.c:1716-1767 | catch() evaluates the second argument only after an error, which it remembers |
| Evaluator.Evaluator.FValue | src/funcs.c:2026-2112 | value() of a variable, or of its default |
| Evaluator.Evaluator.FIsconst | src/funcs.c:1608-1635 | isconst() uses a flag of its own |
| Taint.EvalSound | src/expr.c:867-952 | if an evaluation leaves the flag clear, any other state with the same functions, defined names and constant values gives the same value or error, the same counters and the same flag; unless on the way const() has cleared a set flag, or isconst() has told that its argument is not constant |
| Taint.PlainSound | src/expr.c:867-952 | for programs without const(), isconst() and eval() a clear flag can simply be trusted |
| Taint.ConstLaunders | src/expr.c:570-583 | const() hides a variable: an instance |
| Taint.ConstClearsAll | src/expr.c:570-583 | const() of anything clears the flag of all that was evaluated before it: x + const(1) counts as constant |
| Taint.EvalLaunders | src/funcs.c:4678-4702 | a const() in the text of an eval() hides as well |
| Taint.IsconstTells | src/funcs.c:1608-1635 | isconst() tells what the flag does not: an instance |
| Taint.MissingUnmarked | src/expr.c:447-451 | why the defined names must be the same |
| Folding.EvalFolded | src/expr.c:2412-2436 | applying unary operators to integer constants when parsing, in an expression, in all function bodies and in the texts of eval(): unless the unfolded evaluation is refused because of the limit of nodes, value, error and state are the same, and no more nodes are evaluated |
| Folding.NoWayAround | src/funcs.c:1716-1767 | catch() does not get around the limit of nodes |
| Folding.ParserFolds | src/expr.c:2382-2436 | the tree the parser builds is the expression as written with its constants folded, and nothing else |
| Folding.ParsedKeepsValue | src/expr.c:2382-2436 | what is parsed is worth what was written, through short-circuits, lazy built-ins, eval() and recursive user functions |
| Folding.LimitIsFelt | src/expr.c:880-890 | at the limit itself folding is felt: an instance |
| TrigSearch.Search.Aux | src/dorem.c:283-342 | the marking search terminates, restores every mark, and reports exactly whether a trigger date can be reached through the call graph |
| TrigSearch.FlagLosesNothing | src/dorem.c:321-326 | marking a function while its body is searched loses no trigger date |

## Left out

- Expressions with dates, times, hexadecimal numbers and numbers too large for an int: what such literals stand for is looked up in a table that the theorems take as given.
- JSON numbers with a fraction or a power, or too large for an integer: their kind and their extent are modelled, not their value, which is floating point.
- JsonDocument.EveryValue: asks that the counters of string bytes, items and members, which stop the parser above 4294967287, are not exceeded.
- Variables are found without regard to case: the table of the evaluator is asked for a name as the tree has it, and stands for that search.
- Times minus an int: an int that overflows on the way is not modelled.
- Comments, settings and error texts of the JSON parser: json_parse uses no settings.
- Memory exhaustion, except where the hash table resizes.
- The free list of expression nodes: nodes are counted, not linked.
- The levels of binary operators: six functions of the same form are one method and one function with the level as a parameter.
- The time limit on expressions, debugging output, locale and error messages: no effect on values.
- Old-style built-in functions other than eval(): one function, a parameter of the evaluator, stands for all that evaluate nothing themselves; it sees their arguments and the global state but for the count of nodes, which none of them reads.
- ord() with a function ordx, evaltrig() and multitrig(): they evaluate expressions of their own (src/funcs.c:1310-1345, src/funcs.c:4706-4774, src/funcs.c:4777-4832).
- What eval() makes of a text: a parameter, as it depends on the names that are defined and on the separators of dates and times; ExprParse models the parser itself.  That it may also depend on the deepest expression so far is not modelled.
- Variables local to a user function: an index that is out of range, which the parser never makes, answers E_SWERR.
- Taint.EvalSound: assumes that two states format values alike, read texts alike, and that a built-in marked constant, while it does not say otherwise, depends on its arguments and the state of the evaluation only; ampm(), which reads the separators of dates and times, is marked constant all the same.
- Folding.EvalFolded: assumes that no built-in but the evaluator itself answers E_EXPR_NODES_EXCEEDED.
- ExprSpell.WrittenParsesBack: asks that the time separator is neither white space nor a parenthesis.
- The compression function of MD5: a parameter.  Only the little-endian form of byteReverse, which changes nothing, is modelled.
- hash_table_free and the statistics of the hash table: nothing to prove.
- HashTable.Table.Find: items compare equal when their keys are equal, and equal items must hash alike, as the original asks of its clients.
- Omit.OmitStore.IsOmitted: what a function named by OMITFUNC gives for a day is a parameter; slide() and nonomitted() never pass one, and the delta loop is modelled without.
- Omit.OmitStore.DoOmit: starts where the command has been read; the reading of its tokens is not part of this model.
- Slide.FSlide: asks that a forward slide that is not refused has a free step ahead, since the original would otherwise not return; Slide.ForwardEnds proves that nothing less will do.  An int that overflows is not modelled.
- Slide.ShouldTriggerReminder: without ONCE, TODO, AT and WARN, which are decided before the delta loop.
- Lines.FlatIsStructured: conditions, targets and effects of other lines are given by an environment that may depend on all that was met before.
- Trailing text after ELSE and ENDIF, purging and the Hush option: messages only.
- INCLUDECMD, EXIT, and an INCLUDE of a directory whose list of files cannot be made: process and file system code.
- TrigSearch.Search.Aux: which names are trigger dates is taken as known.
- HebrewYear.YearLengths: Hebrew years before 3744, for which the original's arithmetic starts with negative numbers, are not modelled.
- ComputeJahr and the names of Hebrew months: few cases, no loop.
- Time zones, sun and moon, drawing of calendars, substitution of text, sorting and queueing of reminders.
