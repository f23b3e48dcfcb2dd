# QDOS

QDOS is an operating system for a hand calculator, written in C: a stack of values worked by words, in front of an
interpreter for a small language, with a card to keep things on. This project models the parts of it that promise
something over every input or every run, and proves what they promise:

- **Formulas** (`Text`, `Numeral`, `Words`, `Rpn`, `Formula`, `Grammar`, `Scanner`, `Compiler`, `Translator`,
  `Formulas`, `Readings`, `Limits`, `Floats`, `Verdicts`, `Surplus`, `Supply`, `Lint`). A formula as a TI takes it is
  read once and written out as words as it is read. The reader is a class with the source's own fields, proved against
  a grammar: it accepts exactly the texts that the grammar spells, in one reading each, and what it writes, run on any
  stack, leaves that stack alone under the values of the formula. The two ways of counting what a body leaves without
  running it are what a machine does, and agree.
- **Statistics** (`Vectors`, `Elimination`, `Pivots`, `Regression`, `Fits`). Gauss and Jordan's elimination in an
  array, and when it succeeds, told from the entries; the two least-squares fits, optimal and uniquely so among all
  lines and all quadratics, and when there is one, told from the x.
- **Native modules** (`BlockList`, `Recovery`, `Starts`, `Boots`, `Histories`, `Unwritten`, `LoadCount`). A name left
  in the store while a module is opened. Boots are cut short at any step, any number of times, with any card in, and
  with any of their writes lost.
- **The store** (`Rename`, `Codec`, `Records`, `Session`). Renaming a word in source text, a value as the bytes of a
  record, and the stack written out and pushed back.
- **Numerical work** (`Brent`, `Steps`, `Straight`, `Search`, `Valleys`, `Integral`, `Accuracy`). Root finding,
  extrema and adaptive quadrature of a function known only by calling it.
- **The shell** (`Undo`, `Visitor`, `Arguments`, `Decimals`). One step back and what a failure leaves; apps inside
  apps; a decimal written out two ways.
- **Screen, port and editor** (`Graph`, `Clip`, `Curves`, `Plots`, `Crc`, `Upload`, `Editor`, `Typing`, `Edits`,
  `Panel`, `Losses`, `Window`). A line drawn in dots, a segment cut to the area, a curve with gaps in it; a
  checksummed upload; the program editor under any keys; and two displays sent only what differs, one where what is
  sent may be lost and one that takes it when it likes.

`Basics` and `Bits` hold what several of these share.

Doubles are reals except where their bit patterns are what matters (`Codec`, `Session`). Whatever the machine cannot
see the inside of is a parameter: a word's effect, a function being plotted, a quadrature rule, how opening a module
ends, how the port splits what it delivers, which writes fail, and where a boot is cut short.

Where code is imperative the model is a class or a method with the same loops, tied by its contract to a function of
the old state; the properties are lemmas about that function. Several functions have a twin whose name ends in
`Covered`: it only hides the body from proofs that do not need it, and a lemma beside it (`Open…`) takes the covers
off. A proof elsewhere needs only the name without `Covered`.

## What turned out otherwise

Each of these is proved with an input, and with the condition under which the promise does hold.

- A module that took the machine down is not opened again **only where there is room to list it**. The list is 127
  characters long and cut where it ends. What faulted last is opened in no later run of boots exactly where its own
  name fits (`Histories.ShutExactly`, `Histories.NeverOpenedAgain`), whatever else happens in between; where it does
  not fit, the machine can go down at every start (`Histories.NoRoomNoEnd`). Every run of boots has room exactly where
  the names not listed yet, with what goes between them, fit in what is left of the list (`Histories.RoomExactly`):
  from an empty store, where the lengths of the names and one more for each come to at most 128
  (`Histories.EmptyStoreRoom`). Then and only then the machine goes down while opening no oftener than there are
  names, and comes up in the end (`Histories.DeathsAtMostNames`, `Histories.ComesUp`). Three names of sixty
  characters, crashing one after the other from an empty store, are an example of where it does not
  (`Histories.ThirdLongName`).
- A module whose every opening came back **can still be blocked**: the machine may go down after it answered and
  before its name is cleared (`Boots.AnsweredYetBlocked`). With room for all the names, what is blocked after any run
  of boots is exactly what was blocked before and what some boot was cut between writing its name and clearing it
  (`Histories.BlockedExactly`). **Without room a module that was never opened can be blocked**: what is left of a long
  name when it is cut may be another's name (`Histories.NeverOpenedYetBlocked`). What is on the list in every case is
  in `Histories.ListedExactly`.
- The name and the list are written without looking whether they were. **A crash is forgotten where the list is not
  written and the name is cleared** (`Unwritten.Forgotten`): it is remembered after a boot exactly where the list was
  written, or the name neither cleared nor written over (`Unwritten.RememberedExactly`), and is not opened as long as
  it is (`Unwritten.NotOpenedWhileRemembered`).
- `qdos_natives_load` says it returns the modules accepted from a scope. A folder starts from the count of the walk it
  is in and is then added to it, so **what was loaded before a folder is counted twice** (`LoadCount.CountedTwice`).
  The count is right exactly where nothing was loaded before any folder (`LoadCount.CountIsRightExactly`): with
  entries for all the modules, it is wrong exactly where the scope has a folder after a module that goes in
  (`LoadCount.CountIsWrongExactly`).
- Renaming a word and renaming it back gives the text that was **exactly where the new name was not already there** by
  itself (`Rename.RoundTrip`).
- A stack comes back from a session as it was **exactly where** it is of at most 64 values, each with an encoding and
  with its text shorter than the buffer (`Session.WholeExactly`).
- A failed evaluation is as if it had never been tried **exactly where** the stack was no deeper than 99 and of values
  that can be pushed again, or was left alone and was what UNDO would bring back (`Undo.FailureIsNothing`); whatever
  the evaluation may have done, exactly where the stack was so (`Undo.FailuresAreNothing`).
- An app that has run another **has no name any more**, and can keep no value in its folder: it has its name exactly
  where it has run no app that was there (`Visitor.NameExactly`).
- A bracketed call is written out whatever its number of arguments, and is reported to leave one value. There is a
  count of the words exactly where the formula has enough for each of its calls and signs as it comes to them, which
  its tree tells; the count is then what is reported and **what the calls leave over between them**
  (`Supply.CountedWhereEnough`). So the two agree exactly where it has enough and nothing is left over
  (`Supply.CountAgreesExactly`). One call with something over and they disagree (`Surplus.OneWrongDisagrees`,
  `Surplus.WrongArityDisagrees`); two such calls can make up for one another (`Surplus.TwoWrongsAgree`,
  `Surplus.PowAndDivideAgree`).
- There is a best quadratic wherever three x are different, but **the fit can still say there is none**: it gives up
  on a pivot below 1e-300. There is a fit exactly where the x are far enough apart for it, which their number and the
  sums of the squares, cubes and fourth powers of what they are from their mean tell (`Fits.FitsExactly`, from what
  holds of any matrix in `Pivots.SucceedsExactly`). The determinant made of those is positive exactly where three x
  are different (`Fits.DeterminantPositiveExactly`), and has to be more than that. There is none where the squares
  come to less than 1e-300 (`Fits.VeryCloseFail`), as with 0, t and 2t for t up to 1e-160 (`Fits.ThreeYetNone`), nor
  **however wide the x are** where the determinant does (`Fits.SmallDeterminantFails`), as with 0, t and 3 for t up to
  1e-152 (`Fits.WideYetNone`).
- A session is read back as it was saved where every write of it went through. **Where one fails, what comes back is
  the values below it and over them whatever an earlier session had left in the entries above**
  (`Session.CutShortRestores`), and restoring says nothing of it if those can be read: two values saved over two can
  come back as one of each (`Session.TwoMixed`). It is right exactly where those entries already held what was to be
  written (`Session.CutShortExactly`).
- The memory display shows the last frame as long as every transmission with a row in it arrives
  (`Losses.GoesOnShowing`). **One that is lost is not sent again**, however often the frame is (`Losses.SameAgain`): a
  row of it is right afterwards exactly where some later frame has changed it, or it was so already
  (`Losses.LostRowExactly`).

## Model

| member | source | states |
|---|---|---|
| Translator.InfixToRpn | src/shell/infix.c:573-605 | succeeds exactly on the texts that are formulas and fit the buffer, which then holds the words of the formula's tree in postorder and nothing past its end; splitting it gives those words back; the count reported is the number of expressions |
| Translator.Parser.Emit | src/shell/infix.c:242-253 | one more word, with a space before it unless it is the first, or failure where it would not fit |
| Translator.Parser.Advance | src/shell/infix.c:281-342 | the next token is the head of what scanning the rest of the text gives |
| Translator.Parser.ReadPrimary | src/shell/infix.c:455-489 | reads what the grammar's primary reads from here, and has written the words of what it read |
| Translator.Parser.ReadCall | src/shell/infix.c:411-453 | reads a bracketed call and writes its arguments and then its name, whatever their number |
| Translator.Parser.ReadPostfixed | src/shell/infix.c:491-505 | the postfix words that follow are applied to the value before them |
| Translator.Parser.ReadPower | src/shell/infix.c:508-517 | a power binds to the right, and its exponent may be signed |
| Translator.Parser.ReadUnary | src/shell/infix.c:519-535 | a minus negates the whole power after it |
| Translator.Parser.ReadProduct | src/shell/infix.c:537-557 | products and quotients to the left, juxtaposition among them |
| Translator.Parser.ReadSum | src/shell/infix.c:559-571 | sums and differences to the left |
| Translator.Parser.ReadSums | src/shell/infix.c:585-602 | expressions between commas, counted |
| Translator.FloatOf | src/shell/infix.c:375-408 | a number rewritten in the buffer so that it is a float: the same digits, with a point and a nought where there was none |
| Numeral.AsFloatKeepsValue | src/shell/infix.c:375-408 | the rewritten number is worth what it was |
| Numeral.ReadBack | src/shell/infix.c:293-308 | a number written out is read as the parts it was written from |
| Numeral.NumeralParts | src/shell/infix.c:293-308 | every text taken for a number is the spelling of its parts |
| Grammar.ReadsExactlyTheGrammar | src/shell/infix.c:411-571 | for all tokens and trees: the reader returns a tree and nothing left over exactly when the tokens are the tree written out and the tree obeys the grammar |
| Grammar.Unambiguous | src/shell/infix.c:411-571 | no two trees are written the same |
| Grammar.SumsWritten | src/shell/infix.c:585-602 | whatever is read is a tree of the grammar whose tokens, with what was left, are the tokens there were |
| Scanner.ScanSpelt | src/shell/infix.c:281-342 | tokens spelt out with spaces between scan to themselves |
| Text.CharacterClasses | src/shell/infix.c:281-342 | letters, digits and spaces are those of the C locale, by their codes |
| Scanner.TypedWord | src/shell/infix.c:259-271 | plus, minus, multiply, divide and pow, with a space behind them and no bracket next, are found as the signs +, -, *, / and ^, in so many words |
| Scanner.ScanTyped | src/shell/infix.c:321-330 | tokens typed with spaces between, any of the signs by their words, scan to themselves: the text with the words reads as the text with the signs does |
| Scanner.ScansAreScannable | src/shell/infix.c:281-342 | every scan of a text is of tokens that could have been spelt |
| Scanner.FoundStands | src/shell/infix.c:281-342 | what the scanner finds is inside the text and moves it on |
| Formulas.EveryTreeCanBeTyped | src/shell/infix.c:573-605 | every tree of the grammar is what some text reads as |
| Readings.Sums2 | src/shell/infix.c:559-571 | x + y comes to x y +, and x - y to x y -, with the signs or the words for them |
| Readings.Products2 | src/shell/infix.c:537-557 | x * y comes to x y *, and x / y to x y divide |
| Readings.Powers2 | src/shell/infix.c:508-517 | x ^ y comes to x y pow |
| Readings.SumsToTheLeft | src/shell/infix.c:559-571 | x a y b z, of + and -, signs or words, comes to x y a z b in the words of the signs |
| Readings.ProductsToTheLeft | src/shell/infix.c:537-557 | so does x a y b z of * and / |
| Readings.ProductAfterSign | src/shell/infix.c:559-571 | x + y * z is x + (y * z) |
| Readings.ProductBeforeSign | src/shell/infix.c:559-571 | x * y + z is (x * y) + z |
| Readings.PowersToTheRight | src/shell/infix.c:508-517 | x ^ y ^ z is x ^ (y ^ z) |
| Readings.PowerAfterSign | src/shell/infix.c:508-517 | x * y ^ z is x * (y ^ z) |
| Readings.MinusAPower | src/shell/infix.c:519-535 | - x ^ y is - (x ^ y) |
| Readings.PowerOfMinus | src/shell/infix.c:508-517 | x ^ - y is x ^ (- y) |
| Readings.SideBySide | src/shell/infix.c:546-552 | x / y z is (x / y) * z |
| Readings.Brackets | src/shell/infix.c:465-476 | (x + y) * z is what it says |
| Readings.CallOfTwo | src/shell/infix.c:420-437 | f(x, y) comes to x y f |
| Readings.FactorialFirst | src/shell/infix.c:491-505 | x ! ^ y is (x!) ^ y |
| Readings.FunctionTakesThePower | src/shell/infix.c:441-452 | f x ^ y * z is f(x ^ y) * z |
| Readings.NumberBeside | src/shell/infix.c:546-552 | 2 x is 2 * x |
| Limits.PostfixWords | src/shell/infix.c:363-372 | sq, cb, inv and fac come after what they apply to |
| Limits.SignsRead | src/shell/infix.c:519-535 | thirty-one signs in a row are read, and thirty-two are not |
| Limits.TooLong | src/shell/infix.c:380-414 | a number of more than sixty characters, or a name of more than sixty-three, is not read |
| Limits.FitsExactly | src/shell/infix.c:242-253 | words fit where one by itself has two characters to spare, and more than one have one after them all |
| Floats.WholeNumber | src/shell/infix.c:375-408 | digits, with a point after them or not, are written with .0 after them |
| Floats.WithFraction | src/shell/infix.c:375-408 | a number with a fraction is written as it is, with a nought before a point that begins it |
| Floats.WithExponent | src/shell/infix.c:375-408 | one with an exponent is given no point, and a nought behind a point that has nothing behind it |
| Floats.TypedNumbers | src/shell/infix.c:293-314 | digits, a point and digits, and an exponent with its digits are one number from end to end |
| Floats.MarkAlone | src/shell/infix.c:302-309 | an e with no digits to follow is not part of the number before it |
| Floats.Worth | src/shell/infix.c:293-314 | 1.5, 1.5e2, 1.5E+2 and 1.5e-2 are worth what they say |
| Compiler.SumsRun | src/shell/infix.c:411-571 | the words of a tree run on any stack push the values of its expressions in order and touch nothing below |
| Formulas.TranslationIsWorthTheFormula | src/shell/infix.c:573-605 | what the translator wrote, run on any machine that does arithmetic, leaves the stack with the formula's values on it |
| Rpn.RpnResults | src/shell/infix.c:148-202 | the loop over the body computes the abstract run over its words |
| Rpn.TokenVerdict | src/shell/infix.c:132-199 | a token is a number, a known word, a formula's sign or unknown |
| Verdicts.NameSays | src/shell/infix.c:176-183 | a word of letters, digits, underscores and colons that is not in the table stops the count with minus two |
| Verdicts.MarkSays | src/shell/infix.c:185-193 | any other token with one of ( ) ^ , + - * / in it stops it with minus one, but for -> and -- |
| Verdicts.OtherSays | src/shell/infix.c:194-199 | with none of them in it, minus one where it begins with a digit or a point, and minus two otherwise |
| Rpn.CountIsWhatRunningLeaves | src/shell/infix.c:148-202 | where every word is known, the count is what running from an empty stack leaves, and is refused exactly where running fails |
| Rpn.RunLeavesBelowAlone | src/shell/infix.c:148-202 | a body that runs from some stack runs the same above anything |
| Formulas.CountAgreesWithTranslator | src/shell/shell.c:5193-5220 | with every word known and given its arguments, the count of the words written is the number of results reported |
| Surplus.CountIsReportedAndSurplus | src/shell/infix.c:148-202 | on known words the count is refused, or is the number of results reported and what the calls of the formula leave over |
| Surplus.CountAgreesWhereItRuns | src/shell/shell.c:5193-5220 | given that the words run on an empty stack, the two numbers agree exactly where the calls leave nothing over between them |
| Surplus.OneWrongDisagrees | src/shell/infix.c:411-453 | with exactly one call that leaves something over they disagree |
| Surplus.WrongArityDisagrees | src/shell/infix.c:420-437 | a word of two arguments with one in its brackets is a text of one result whose words the count refuses |
| Surplus.TwoWrongsAgree | src/shell/infix.c:411-453 | a text with one argument too many in one call and one too few in the next, whose count is the two results reported |
| Surplus.PowAndDivideAgree | src/shell/infix.c:411-453 | there is such a text among the words of the table |
| Supply.CountedWhereEnough | src/shell/infix.c:148-202 | there is a count of the words written exactly where the formula has enough for each call and sign as it comes to it, and then it is the number of results reported and what the calls leave over |
| Supply.CountAgreesExactly | src/shell/shell.c:5193-5220 | the two numbers agree exactly where the formula has enough and its calls leave nothing over between them, whatever its words are |
| Supply.RunsWhereEnough | src/shell/infix.c:411-453 | on known words, any machine that has the table's words runs what was written on an empty stack exactly where the formula has enough |
| Formulas.TableMachineIsOne | src/shell/infix.c:19-102 | the table of effects is one a machine can have |
| Lint.Counter.Count | src/shell/lint.cc:113-157 | walking the tree leaves the tally of the words in order |
| Lint.CountAllIsExact | src/shell/lint.cc:101-157 | a tally continued over more nodes says exactly which stacks they run from and where they end |
| Lint.BodyRunsFromTakes | src/shell/lint.cc:101-157 | a body with nothing in doubt runs from a stack of s values exactly when s is at least what it takes, and ends at s and the depth |
| Lint.TallyIsTheMachines | src/shell/lint.cc:101-157 | on known words, any machine that has the table's words runs the body on a stack exactly where there are as many values as the tally takes, and leaves as many more as its depth |
| Lint.TalliesCompose | src/shell/lint.cc:101-157 | the tally of two bodies in a row: it takes the greater of what the first takes and what the second takes less the first's depth, and the depths add |
| Lint.CheckEffect | src/shell/lint.cc:164-213 | a body is reported exactly when it reaches below its inputs or does not end at its outputs; what it is said to take is the least it runs from, and what it is said to leave is where it ends |
| Lint.CountersAgree | src/shell/lint.cc:101-157 | on words alone, the count over the body is the depth where nothing is taken, and is refused otherwise |
| Elimination.FindPivot | src/shell/stats.c:148-151 | the row from the column on with the largest entry there, the first of equals |
| Elimination.PivotIsFirst | src/shell/stats.c:148-151 | the entries above the pivot in its column, from the column's own row on, are smaller |
| Elimination.Reduce | src/shell/stats.c:160-168 | a row in place becomes itself less so many times the pivot row |
| Elimination.Solve | src/shell/stats.c:147-170 | the array is reduced to what the elimination gives, or given up exactly where a column has no pivot |
| Elimination.EliminateKeepsSolutions | src/shell/stats.c:147-170 | every step keeps the solutions of the equations and what is already cleared |
| Elimination.GivesUpOnTiny | src/shell/stats.c:147-154 | where only nought is taken to nought by the rows, it gives up on no pivot but one between nought and 1e-300 |
| Elimination.EliminationSolves | src/shell/stats.c:147-171 | where it succeeds, the three quotients are a solution and the only one |
| Pivots.SucceedsExactly | src/shell/stats.c:147-170 | for any matrix, the elimination succeeds exactly where the largest entry of the first column, the larger minor of its row and the determinant are each no less than 1e-300 times the one before; nothing is eliminated to say so |
| Regression.NormalIsBest | src/shell/stats.c:136-146 | a solution of the normal equations beats any other quadratic by exactly the squares of what they differ by |
| Regression.NormalIsOnlyBest | src/shell/stats.c:136-146 | another that is no worse has the same residuals |
| Regression.RecentredMisfit | src/shell/stats.c:172-174 | the coefficients taken back from the mean leave the same residuals at the points as those about it |
| Fits.BestRecentred | src/shell/stats.c:172-174 | the best quadratic about the mean is, taken back, the best there is |
| Fits.NormalEquations | src/shell/stats.c:136-146 | the array summed point by point holds the products of the columns |
| Fits.NormalRowsMean | src/shell/stats.c:136-146 | its solutions are exactly those of the normal equations |
| Fits.FitQuadratic | src/shell/stats.c:124-184 | a fit exactly where there are three points and the x are far enough apart; no other quadratic is as good; r2 is in [0, 1] and is the share of the spread accounted for |
| Fits.TwoValuesFail | src/shell/stats.c:147-154 | with no more than two different x there is no fit |
| Fits.FitsExactly | src/shell/stats.c:124-171 | whatever the y, the elimination succeeds exactly where the x are far enough apart, told from their number and the sums of the squares, cubes and fourth powers of what they are from their mean |
| Fits.DeterminantPositiveExactly | src/shell/stats.c:136-146 | the determinant made of those sums is never negative, and is positive exactly where three x are different |
| Fits.ThreeGiveUpOnTiny | src/shell/stats.c:147-154 | with three different x, what the fit gives up on is no nought but a pivot between nought and 1e-300 |
| Fits.SmallDeterminantFails | src/shell/stats.c:147-154 | with squares about the mean of 1 or more, whose cube is no less than the number of points, and a determinant below 1e-300, there is no fit however far the x spread |
| Fits.VeryCloseFail | src/shell/stats.c:147-154 | with squares about the mean adding up to less than 1e-300 there is none, however many different x |
| Fits.ThreeYetNone | src/shell/stats.c:147-154 | three different x, 0, t and 2t, with none |
| Fits.WideYetNone | src/shell/stats.c:147-154 | three different x, 0, t and 3, whose squares about the mean come to 2 and more, with none |
| Fits.EvenThreeFit | src/shell/stats.c:124-171 | three x evenly spaced, one or more apart, have a fit wherever they are |
| Fits.FitLine | src/shell/stats.c:96-122 | a fit exactly where x varies; no other line is as good; r2 is in [0, 1] and is the share of the spread accounted for |
| Fits.SpreadWhereItVaries | src/shell/stats.c:115-117 | the spread is positive exactly where x varies |
| Fits.LineIsBest | src/shell/stats.c:118-119 | the line of that slope through the means is the one best line |
| BlockList.IsListed | src/shell/native.c:324-340 | the loop finds a whole name in the list |
| BlockList.AddedLists | src/shell/native.c:342-349 | nothing falls off the list, and what goes on it is as much of the name as there is room for |
| BlockList.AddedIsListed | src/shell/native.c:342-349 | a name is listed afterwards exactly where it fits |
| BlockList.AddedKeeps | src/shell/native.c:342-349 | where it fits nothing else goes on |
| BlockList.AddedTwice | src/shell/native.c:342-349 | adding twice is adding once, whether it fits or not |
| Recovery.Natives.Recover | src/shell/native.c:351-370 | what is in the store afterwards, and the writes made on the way |
| Recovery.Natives.Unblock | src/shell/native.c:372-383 | the list is emptied, here and in the store |
| Recovery.Natives.SlotFor | src/shell/native.c:446-461 | the entry of that name, or a new one while there are fewer than eight |
| Recovery.Natives.TryOpening | src/shell/native.c:611-644 | the name is down before anything of the module runs and up however its opening ends |
| Recovery.Natives.LoadFile | src/shell/native.c:567-645 | one file takes the walk where the walk on values goes |
| Recovery.Natives.Load | src/shell/native.c:647-659 | so does one scope, with the count it returns |
| Recovery.Natives.Start | src/shell/shell.c:10001-10004 | a whole start comes to exactly the steps of a boot, the writes among them whether or not they go through |
| Starts.OpenedExactly | src/shell/native.c:567-645 | with no more than eight names on the card, a module is opened exactly where a file of it is there that can be copied to where it is opened from, and it is not on the list once what faulted is |
| Starts.NameIsDown | src/shell/native.c:611-644 | wherever a start opens a module, its name was written just before, and is cleared just after it answers |
| Starts.StartInTurn | src/shell/native.c:590-612 | over a whole start no module is opened while one of its name is open, none is closed that is not, and the entries say in the end which are open |
| Starts.OneEntry | src/shell/native.c:590-645 | the entry of a module says it faulted where it is listed, and otherwise how opening it ended; no other entry is touched |
| Starts.NoEntry | src/shell/native.c:585-588 | with eight others, a ninth is passed over, and the rest of the listing with it |
| Starts.AddedIs | src/shell/native.c:342-349 | a name goes on the list after a space, or by itself, and all of it where that is no more than 127 |
| Starts.NamesAre | src/shell/storage.c:215-228 | a name is one to sixty letters, digits and underscores, by their codes |
| Starts.FirstOfAll | src/shell/native.c:351-370 | before it opens anything a start puts what faulted on the list, and then forgets it |
| Boots.LifeLeaves | src/shell/native.c:351-370 | wherever a boot is cut short, what it leaves in the store |
| Boots.LifeProtects | src/shell/native.c:606-612 | what is listed or about to be stays so, and is not opened |
| Boots.LeftInStore | src/shell/native.c:611-639 | a boot leaves a name in the store exactly when it is cut between writing it and clearing it |
| Boots.LifeProtectsExactly | src/shell/native.c:342-370 | with room for what faulted last, a boot comes to protect exactly what it is cut while opening |
| Boots.LifeLists | src/shell/native.c:342-370 | what gets onto the list in a boot is as much as fits of what faulted last |
| Boots.ReopenedExactly | src/shell/native.c:342-349 | what faulted is opened at the next start of a card with it exactly when there was no room |
| Boots.AnsweredYetBlocked | src/shell/native.c:632-639 | a module that answered is blocked all the same if the machine goes down before its name is cleared |
| Boots.RecoverTwice | src/shell/native.c:364-366 | recovery cut short and done again comes to the same |
| Histories.ShutExactly | src/shell/native.c:342-370 | what faulted last is opened in no later run of boots, each cut anywhere, exactly where its name fits the list |
| Histories.NeverOpenedAgain | src/shell/native.h:95-105 | a module being opened when the machine went down is opened in no later run of boots exactly where its name fits the list of that boot |
| Histories.ListedExactly | src/shell/native.c:342-370 | after any run of boots a name is listed exactly where it was, or some boot put it there: as much as fitted of what had faulted |
| Histories.BlockedExactly | src/shell/native.c:611-639 | with room for all the names not listed yet, what is blocked or about to be after any run is exactly what was, and what some boot was cut while opening |
| Histories.NeverOpenedYetBlocked | src/shell/native.c:342-349 | from an empty store, boots after which a module that none of them opened is blocked |
| Histories.RoomExactly | src/shell/native.c:342-349 | every run of boots has room for whatever faults exactly where there is room for all the names not listed yet |
| Histories.EmptyStoreRoom | src/shell/native.c:342-349 | from an empty store that is where the names, with one more for each, come to no more than 128 |
| Histories.FewShortNames | src/shell/native.h:27 | two names of any length, and eight of up to fifteen characters, do |
| Histories.AlwaysRoomy | src/shell/native.c:342-349 | where there is room for all the names there is for whatever faults, all through any run |
| Histories.DeathsAtMostNames | src/shell/native.h:95-105 | boots that go down while opening are at most the names there are, in every run, exactly where there is room for them |
| Histories.ComesUp | src/shell/native.h:95-105 | of more boots than names, if only opening kills, one gets to its end, in every run, exactly where there is room for them |
| Histories.NoRoomNoEnd | src/shell/native.c:342-349 | a module with no room takes the machine down at every start |
| Histories.ThirdLongName | src/shell/native.h:27 | three crashes from an empty store, and the third name has no room |
| Unwritten.AllGo | src/shell/native.c:351-370 | where every write goes through, what a boot leaves is what it leaves above |
| Unwritten.RememberedExactly | src/shell/native.c:364-366 | whichever writes of the next boot go through, a crash is still remembered after it exactly where the list was written, or the name neither cleared nor written over |
| Unwritten.NotOpenedWhileRemembered | src/shell/native.c:351-370 | over any run of such boots, what faulted last is not opened while each leaves it remembered |
| Unwritten.ListOnlyGrows | src/shell/native.c:342-370 | nothing falls off the list in the store, whichever writes go through |
| Unwritten.Forgotten | src/shell/native.c:364-366 | the list not written and the name cleared: the crash is forgotten, and the module opened at the next start |
| Unwritten.CrumbExactly | src/shell/native.c:611-612 | a module that takes the machine down while it is opened has its name in the store exactly where the write of it went through, or what was there before was that |
| LoadCount.CountIsRightExactly | src/shell/native.c:570-577 | the count a scope returns is how many went in exactly where nothing was loaded before any folder |
| LoadCount.CountedTwice | src/shell/native.c:572-577 | one module and an empty folder are counted as two |
| LoadCount.CountIsWrongExactly | src/shell/native.c:570-577 | with entries for all the modules of a scope, its count is wrong exactly where a folder comes after a module that goes in |
| Rename.SourceRename | src/shell/storage.c:438-486 | succeeds exactly where the renamed text fits with its terminator, and the buffer then holds it |
| Rename.PieceEnd | src/shell/storage.c:447-473 | the pointer stops at the end of the first piece |
| Rename.StringsLeftAlone | src/shell/storage.c:458-463 | a string, every quote and backslash in it escaped, is left as it is, and the renaming goes on after it |
| Rename.OpenStringLeftAlone | src/shell/storage.c:458-463 | so is one that is not closed, to the end |
| Rename.CommentsLeftAlone | src/shell/storage.c:452-457 | a comment is left as it is to the first that closes it, and the renaming goes on after it |
| Rename.OpenCommentLeftAlone | src/shell/storage.c:452-457 | so is one that is not closed, to the end |
| Rename.LineLeftAlone | src/shell/storage.c:447-451 | a comment to the end of its line is left as it is, and the renaming goes on with the newline |
| Rename.WordsRenamedExactly | src/shell/storage.c:464-473 | a whole word is renamed exactly where it is that word, with no scope before it or after it |
| Rename.WordCharacters | src/shell/storage.c:434-436 | letters, digits and underscores make words, by their codes |
| Rename.OthersStay | src/shell/storage.c:474-482 | any other character stays |
| Rename.PiecesSpell | src/shell/storage.c:443-482 | the pieces one after the other are the text |
| Rename.OneForOne | src/shell/storage.c:465-473 | each piece is as it was unless it is the word by itself, not in a string or a comment and not beside a `::` |
| Rename.ReadsBack | src/shell/storage.c:438-486 | the result reads back as exactly the pieces that were put |
| Rename.ThereAndBack | src/shell/storage.c:438-486 | renaming a to b and then b to a is renaming b to a, on every text |
| Rename.RoundTrip | src/shell/storage.c:438-486 | it gives the text that was exactly where b was not there by itself, or is a |
| Rename.Gone | src/shell/storage.c:438-486 | the word renamed is nowhere by itself afterwards |
| Codec.PutU64 | src/shell/storage.c:49-53 | the eight bytes of a word, low first, in place |
| Codec.GetU64 | src/shell/storage.c:55-61 | the number the bytes are |
| Codec.NumberOfLittle | src/shell/storage.c:49-61 | bytes put are got as the number they were |
| Codec.LittleOfNumber | src/shell/storage.c:49-61 | and the other way about |
| Codec.Encode | src/shell/storage.c:63-115 | the buffer begins with the record of the value |
| Codec.Decode | src/shell/storage.c:117-169 | the value a record holds, or none |
| Codec.RoundTrip | src/shell/storage.c:63-169 | a record decodes to its value, but for what a text has beyond a nought or its buffer |
| Codec.KeptWhole | src/shell/storage.c:103-110 | nothing is lost exactly where the text is a C string that fits |
| Codec.CutShort | src/shell/storage.c:118-160 | a record cut short anywhere is no record |
| Records.NumbersAre | src/shell/storage.c:63-93 | byte by byte: QDS, one, the kind, three noughts, and eight bytes with the low one first; a whole number in two's complement, a double its bits |
| Records.ComplexIs | src/shell/storage.c:94-101 | a complex number has its imaginary part behind |
| Records.TextIs | src/shell/storage.c:103-112 | a text or a decimal has its length and then itself, up to a nought or 239 bytes |
| Records.NoRecord | src/shell/storage.c:117-169 | what has not that head, or is of no kind there is, is no record |
| Records.TooLong | src/shell/storage.c:152-160 | nor is a text said to be longer than its buffer or than what there is |
| Records.AfterRecord | src/shell/storage.c:117-169 | what comes after a record is not looked at |
| Session.Store.SaveSession | src/shell/storage.c:866-925 | whichever writes fail: the entries afterwards and what is returned, up to the first that does; the last of all is not looked at |
| Session.Interpreter.RestoreSession | src/shell/storage.c:935-990 | pushes what the entries say, and how it ends |
| Session.Store.SessionLost | src/shell/storage.c:927-933 | how many values the entries say were left behind |
| Session.SaveThenRestore | src/shell/storage.c:866-990 | whatever was stored before, what is restored is the longest prefix with an encoding of the first 64 values |
| Session.EntriesSaved | src/shell/storage.c:866-925 | each value is saved by its kind, with how many there are and how many were left behind |
| Session.CountNotWritten | src/shell/storage.c:889-896 | where how many there are is not written, nothing is, and it is an error |
| Session.LostNotWritten | src/shell/storage.c:913-924 | where only how many were left behind is not, it is none, and what was said before still is |
| Session.LostRead | src/shell/storage.c:927-933 | the number left behind is what was written, and none where that is missing, no number, or less than one |
| Session.StopsAt | src/shell/storage.c:950-988 | restoring stops with an error at an entry missing, damaged or not to be parsed, and without one at an empty one |
| Session.NotFoundExactly | src/shell/storage.c:935-948 | there is no session exactly where it does not say how many values it has, or says less than none or more than 64 |
| Session.AllWritten | src/shell/storage.c:866-925 | with every write going through, what a save leaves is that |
| Session.CutShortRestores | src/shell/storage.c:898-911 | where the write of a value fails, what is restored is the values below it and then what the entries above had held |
| Session.CutShortExactly | src/shell/storage.c:898-911 | which is what should have been saved exactly where those entries held it already |
| Session.TwoMixed | src/shell/storage.c:898-911 | two values saved over two, the second not written: one of each comes back, and restoring says nothing of it |
| Session.LongestAndTheRest | src/shell/storage.c:871-933 | no longer prefix would do; saved and lost make up the values there were |
| Session.WholeExactly | src/shell/storage.c:834-864 | a stack comes back as it was exactly where each value does and there are at most 64 |
| Brent.Arranged | src/shell/numeric.c:35-47 | afterwards the two ends are on opposite sides of the axis and b is the better |
| Straight.ArrangedAs | src/shell/numeric.c:35-47 | where c is no longer on the other side a takes its place and the steps before are the way from there; the ends change about only where that leaves b strictly better |
| Straight.NearExactly | src/shell/numeric.c:48-53 | it stops exactly where the ends are no more than two tolerances apart, or at a root |
| Brent.ShortStep | src/shell/numeric.c:53-75 | a step accepted has a denominator to divide by and goes less than three quarters of the way |
| Brent.Chosen | src/shell/numeric.c:53-79 | whichever step is chosen goes toward the other end, and less than three quarters of the way |
| Steps.Bisects | src/shell/numeric.c:53-79 | where interpolation is not tried, the next point is the middle of the bracket |
| Steps.ToTheChord | src/shell/numeric.c:54-75 | with two points to go by, the step is to where the chord crosses the axis, if it is towards the other end, less than three quarters of the way and less than half the step before last, and otherwise to the middle; it is a tolerance where it would be less |
| Steps.ToTheCurve | src/shell/numeric.c:54-75 | with three, it is in the same way to where the quadratic in y through all of them crosses |
| Steps.NoCurve | src/shell/numeric.c:54-79 | with two of three points as high as each other, it is to the middle |
| Straight.StraightLine | src/shell/numeric.c:32-90 | of any straight line between points either side of the axis, the crossing is returned to within two tolerances, after one look at most |
| Straight.ToleranceIs | src/shell/numeric.c:48 | near enough is the distance from nought by 2^51, and 1e-300 |
| Straight.OppositeIs | src/shell/numeric.c:35 | two values are on opposite sides where one is above the axis and the other below it or on it |
| Brent.StaysInside | src/shell/numeric.c:34-87 | every bracket and every point looked at is inside the first bracket |
| Brent.BrentRoot | src/shell/numeric.c:32-90 | the outcome and the points looked at are those of the run on values; a change of sign is kept every time round, each look is strictly inside, the bracket only narrows, it fails only where the function does, and a root returned is inside the interval and is one, or is within the tolerance of a change of sign, or time ran out |
| Search.GoldenSearch | src/shell/numeric.c:95-127 | the points looked at and the section it ends with are those of the golden sections of the interval; every point is inside, and what is returned is the lowest of them |
| Search.Narrowed | src/shell/numeric.c:106-123 | the loop cuts one side off and looks at one point of what is left, section after section |
| Search.Extremum | src/shell/numeric.c:198-226 | the lowest sample, or what the golden search either side of it ends with where that is as low: found exactly where any sample is; inside, the function's value there, and no sample lower |
| Valleys.ClosesIn | src/shell/numeric.c:106-123 | a section of a function that falls and then rises keeps its lowest point in it when it is cut, and is left less than five eighths as wide, with its points still where they should be |
| Valleys.TieCutsRight | src/shell/numeric.c:107-113 | with the points as high as each other it is the right-hand end that is cut off |
| Valleys.BestIsFirst | src/shell/numeric.c:207-211 | of samples as low as each other the first is taken |
| Valleys.ValleyFound | src/shell/numeric.c:95-127 | of such a function, over an interval no wider than 16, or than 16 times as far as it is from nought, the search ends within 2e-12 of its lowest point |
| Valleys.ExtremumIsFound | src/shell/numeric.c:198-226 | so is the extremum of one found, wherever it is among the samples, over 512 in place of 16 |
| Valleys.EvenlySpaced | src/shell/numeric.c:24-29 | the samples are a 64th of the interval apart, from one end to the other |
| Search.NumRoot | src/shell/numeric.c:144-196 | the first sample that is nought or change of sign whose narrowing ends at no pole, or else where the function comes nearest nought, if near enough; one is returned wherever any sample or change of sign gives one, and it is inside and a millionth of the scale at most |
| Integral.NumIntegral | src/shell/numeric.c:294-336 | the area is the total of the pieces that refining gives, and it fails exactly where that does |
| Integral.Table.Halve | src/shell/numeric.c:322-334 | the worst piece is halved in place, its right half put at the end |
| Integral.AreaTiles | src/shell/numeric.c:294-336 | for any rule, the pieces tile the interval, each with what the rule gives for it, at most 128 of them, and either the error is small or the budget is spent |
| Integral.HalvedTiles | src/shell/numeric.c:322-334 | halving a piece keeps the tiling |
| Accuracy.HalvesAreEqual | src/shell/numeric.c:322-334 | the two parts of a halved piece are equally wide, each with what the rule gives for it, and no other is touched; it fails exactly where the rule fails on one of them |
| Accuracy.WorstIsFirst | src/shell/numeric.c:309-316 | the piece halved is the first of those with the largest error |
| Accuracy.AreaIsNear | src/shell/numeric.c:294-336 | with a rule never further out than it says, which on pieces no wider than a 64th of the interval says next to nothing, the area is right to a part in ten thousand million or to 1e-12 |
| Accuracy.OnePieceExactly | src/shell/numeric.c:317-320 | the interval is left in one piece exactly where the rule says that is near enough |
| Integral.AreaExact | src/shell/numeric.c:294-336 | where the rule is exact, so is the area |
| Undo.CleanExactly | src/shell/shell.c:1271-1310 | what a snapshot puts back is the stack exactly where it is no deeper than 99 and each level can be pushed again |
| Undo.Shell.Snapshot | src/shell/shell.c:1271-1300 | the snapshot before is kept and the new one is of the stack, the top first |
| Undo.Shell.Failed | src/shell/shell.c:1324-1334 | an exact snapshot is put back and the one before it restored |
| Undo.Shell.Try | src/shell/shell.c:1581-1592 | an evaluation's outcome on the stack and on the step UNDO has |
| Undo.Shell.ApplyKeyWord | src/shell/shell.c:1768-1791 | what has been typed is entered first, and the word tried only if that went in |
| Undo.Shell.Press | src/shell/shell.c:1312-1322 | each key on the shell is that key on the stack and the step UNDO has |
| Undo.FailureIsNothing | src/shell/shell.c:1324-1334 | a failure changes nothing, whatever it did to the stack, exactly where the stack was exact or nothing was there to change |
| Undo.FailuresAreNothing | src/shell/shell.c:1324-1334 | no failing evaluation whatever changes anything, exactly where the stack was exact |
| Undo.FailuresDropOut | src/shell/shell.c:1564-1605 | a run with failures in it comes to what it comes to without them |
| Undo.KeysComeToTheirSuccesses | src/shell/shell.c:1564-1605 | any run of keys, with failures only where the stack was exact, comes to the evaluations in it that succeeded and the UNDOs between |
| Undo.UndoAfterFailures | src/shell/shell.c:1312-1322 | after any failures UNDO brings back the stack from before the last success |
| Visitor.Visits | src/shell/shell.c:3268-3324 | for any nesting, however each app ends: settings, slots, window and format as found unless that app itself called keep; the outer app's flags, arguments read and answers as they were; the store agrees, and so do the words declared for the slots |
| Visitor.Pays | src/shell/shell.c:3326-3350 | the caller's stack loses exactly the numbers read and gains the answers in order, if the app ended well with one, and is otherwise as it was |
| Visitor.DoesKeeps | src/shell/shell.c:8604-8646 | as many arguments are read as were asked for and were numbers, and as many answers given as were made |
| Arguments.ArgIsNext | src/shell/shell.c:8621-8646 | the next argument is the caller's next number from the top with 1 over it, and nought with nought over it where there is none |
| Arguments.AnswerIsTop | src/shell/shell.c:8605-8615 | an answer is the top of the app's own stack, refused exactly where there are eight or there is nothing to give |
| Arguments.ConfigureSets | src/shell/shell.c:3217-3258 | what is set is had and saved at once |
| Arguments.DrawSets | src/shell/shell.c:3217-3258 | so is what is drawn, with a word for each body |
| Arguments.KeepRaises | src/shell/shell.c:430-431 | calling keep raises its flag, and nothing else |
| Arguments.GoneFails | src/shell/shell.c:3268-3291 | an app that is not there any more has gone wrong, and changed nothing |
| Arguments.RunInside | src/shell/shell.c:3326-3350 | an app run inside, on the app's own stack, ends it too where it went wrong and nothing catches that |
| Arguments.ComputeDoes | src/shell/shell.c:3313-3317 | computing is on the app's own stack, and touches nothing else |
| Arguments.WhatEnds | src/shell/shell.c:3313-3331 | a failure ends an app, and so does a break, which is not forgotten |
| Arguments.TopTurnedOver | src/shell/shell.c:3326-3350 | an app that reads n numbers and answers with each leaves the caller's top n turned over, and what is below them where it was |
| Arguments.KeptStays | src/shell/shell.c:3303-3324 | with keep called, what was set and what was drawn stay when the app ends |
| Visitor.BreakStops | src/shell/shell.c:3326-3331 | a break anywhere inside stops every app around it |
| Visitor.NameExactly | src/shell/shell.c:3301-3318 | an app has its own name, and so its folder, exactly where it has run no app that was there; after one it has none |
| Visitor.PutBackPuts | src/shell/shell.c:3217-3258 | writing and declaring only what differs leaves the store with what the shell has, and each slot's word with its body |
| Visitor.Calculator.PutItBack | src/shell/shell.c:3217-3258 | the put-back field by field is that on values, a slot whose body is put back declared again |
| Visitor.Calculator.RunApp | src/shell/shell.c:3268-3351 | running an app in place is running it on values |
| Decimals.DigitsOf | src/shell/shell.c:748-774 | the digits and the point of a text, no nought in front of the first that counts |
| Decimals.ReadIsNeat | src/shell/shell.c:767-773 | whatever text is read, no nought is left in front of the first digit that counts |
| Decimals.ExponentShifts | src/shell/shell.c:755-766 | an exponent, whatever its mark and sign, only moves the point: on by so many, or back with a minus |
| Decimals.WritePlain | src/shell/shell.c:777-805 | the buffer holds a beginning of the plain form, and all of it with two places to spare |
| Decimals.ScientificRead | src/shell/shell.c:808-811 | read back from its exponent form a number is exactly as it was |
| Decimals.PlainRead | src/shell/shell.c:777-805 | read back from its plain form it has its digits again with the noughts put after them |
| Decimals.WrittenIsSame | src/shell/shell.c:748-811 | both ways of writing denote the number, however the fraction is padded |
| Graph.Area.Line | src/shell/graph.c:267-293 | the picture afterwards is the picture with exactly the dots of the line that are inked and inside, and the counter has gone on by the steps |
| Graph.WithinHalfAPixel | src/shell/graph.c:267-293 | every dot is within half a pixel of the true line |
| Graph.EndToEnd | src/shell/graph.c:267-293 | from one end to the other in as many steps as the longer way, each dot next to the last |
| Curves.PatternRunsOn | src/shell/graph.c:254-293 | however a curve is cut into segments, the dots go on from one to the next, none twice and none left out, each inked by its place along the whole curve |
| Curves.InkedByPlace | src/shell/graph.c:254-265 | a solid curve inks all of its dots, a dashed one four and then not four, a dotted one every third |
| Clip.ClipTo | src/shell/graph.c:375-408 | the loop over the four sides computes the segment cut to the box |
| Clip.ClippedExactly | src/shell/graph.c:371-408 | nothing is left exactly where no point of the segment is in the box; otherwise what is left is on the segment, the same way round, and is all of it that is in the box |
| Clip.InsideStays | src/shell/graph.c:371-408 | a segment whose ends are in the box is left as it is |
| Plots.DrawSegment | src/shell/graph.c:410-418 | a segment is drawn from the pixel nearest one end of what is left of it to that nearest the other, or not at all, and the count goes on by its steps |
| Plots.JoinIsShort | src/shell/graph.c:371-418 | however far off its ends are, in no more steps than the area is long, and one |
| Plots.DrawPoints | src/shell/graph.c:426-443 | the picture is what each point has inked in turn: a line to the next, a dot where it is alone, nothing in a gap |
| Plots.GapApart | src/shell/graph.c:426-443 | what is either side of a gap is drawn as if the other were not there, but that the pattern goes on |
| Plots.WholeCurve | src/shell/graph.c:426-443 | a curve all of it in the area is drawn as its path: each of its dots once, inked by its place along it |
| Crc.Crc32 | src/hal/serial_console.c:52-61 | the bit loop computes the checksum of the bytes |
| Crc.InPieces | src/hal/serial_console.c:52-61 | a checksum taken in pieces is that of the whole |
| Crc.SameByTable | src/hal/serial_console.c:52-61 | it is the checksum of the table form of section 8 of RFC 1952 |
| Crc.BitByPlace | src/hal/serial_console.c:56-58 | a bit taken off the low end moves the others down, and where it was one flips those the polynomial has |
| Crc.ChecksumByTable | src/hal/serial_console.c:52-61 | the register is inverted first and last, and between the two is what the table makes of it |
| Crc.OnesByte | src/hal/serial_console.c:52-61 | the checksum of one byte of ones is 0xFF000000 |
| Crc.NoBytes | src/hal/serial_console.c:52-61 | of no bytes a checksum is what it was |
| Crc.PolynomialIs | src/hal/serial_console.c:57 | the bits of the polynomial are those of 0xEDB88320 |
| Crc.OneByteWrong | src/hal/serial_console.c:52-61 | files of which only one byte differs have different checksums |
| Upload.Drain | src/hal/serial_console.c:237-241 | all that comes of what is left is read: as much as was asked for and is there, before the port first stops |
| Upload.Receive | src/hal/serial_console.c:223-246 | the same of the file, whatever becomes of writing it; it went well exactly where all of it came and every write went through, and then what was written is what was read and the checksum is of all of it |
| Upload.PutFile | src/hal/serial_console.c:213-270 | whatever part file an earlier upload left: once ready, as many bytes are read as come, whatever the disk does; the reply is told from how many came, whether the writes and the close went through, the checksum and the rename; and the file's place holds the old file, nothing, or the whole file with the right checksum, at every moment |
| Upload.AllComes | src/hal/serial_console.c:223-246 | however the port splits it, all of a file that is there comes from a port that goes on giving something |
| Upload.FullReads | src/hal/serial_console.c:223-246 | a port that gives a chunk or more to every read gives 512 bytes to each |
| Upload.NoneFail | src/hal/serial_console.c:223-246 | where no write fails they all go through |
| Upload.FirstFails | src/hal/serial_console.c:223-246 | and where there is one to make and the first fails they do not |
| Upload.NoughtIs | src/hal/serial_console.c:223-246 | the checksum of an upload starts from nought |
| Editor.LinesBoth | src/shell/editor.c:11-23 | the lines of two texts one after the other |
| Editor.JoinedLines | src/shell/editor.c:202-224 | the lines joined by newlines are the text |
| Editor.CursorLine | src/shell/editor.c:226-236 | the cursor's line begins at its line's start and its column is the rest |
| Editor.OffsetBack | src/shell/editor.c:226-236 | line and column give back the offset |
| Typing.LinesApart | src/shell/editor.c:11-23 | what is before the first newline is one line, and what is after it is lines of its own |
| Editor.Buffer.constructor | src/shell/editor.c:66-80 | as much of a source as there is room for, the cursor at its start and nothing to undo |
| Editor.Buffer.Template | src/shell/editor.c:66-77 | a new program of that name, the cursor on the line of its body |
| Typing.NewProgramLines | src/shell/editor.c:66-77 | a new program is its name, a line with a tab in it, and the brace that closes it |
| Editor.PutLines | src/shell/editor.c:41-52 | a character put in ends the line before the cursor or goes on its end |
| Editor.DeleteLines | src/shell/editor.c:54-60 | a character taken out comes off it or joins it to the one before |
| Editor.Buffer.GetLine | src/shell/editor.c:212-224 | the line asked for, and none exactly where there are not so many |
| Editor.Buffer.CountLines | src/shell/editor.c:202-210 | how many lines there are |
| Editor.Buffer.Where | src/shell/editor.c:226-236 | the line and the column of the cursor |
| Editor.Buffer.Move | src/shell/editor.c:168-200 | up or down a line, to the lesser of the column and the line's length |
| Typing.OneEitherWay | src/shell/editor.c:171-175 | left is one character back but at the start, right one on but at the end |
| Typing.LeftInLines | src/shell/editor.c:171-173 | left is one column back, or to the end of the line before |
| Typing.RightInLines | src/shell/editor.c:173-175 | right is one column on, or to the beginning of the next line |
| Editor.Buffer.InsertChar | src/shell/editor.c:82-95 | the text with the character in, a brace by itself coming out a tab; as everywhere, the text stays shorter than its buffer |
| Typing.BraceCloses | src/shell/editor.c:82-95 | a brace typed after blanks only, the last of them a tab, takes the place of the tab |
| Typing.OthersGoIn | src/shell/editor.c:82-95 | anything else goes in as it is, with the cursor after it |
| Typing.FullStays | src/shell/editor.c:41-44 | with 4095 characters in it the buffer takes no more |
| Editor.Buffer.Backspace | src/shell/editor.c:97-103 | the text without the character before the cursor, if there is one |
| Editor.DeleteUndoesPut | src/shell/editor.c:41-60 | taking out what was just put in leaves the document as it was |
| Editor.Buffer.Newline | src/shell/editor.c:105-128 | a new line as far in as this one, and further after a brace, as a step of its own |
| Typing.NewLineIndents | src/shell/editor.c:105-128 | a new line begins with the blanks the one before begins with |
| Typing.NewLineAfterBrace | src/shell/editor.c:105-128 | and with a tab more where that one ends in a brace, blanks after it aside |
| Editor.Buffer.Undo | src/shell/editor.c:130-151 | the document and the one saved change places |
| Editor.Buffer.Goto | src/shell/editor.c:153-166 | to the first character of a line that is no blank, or to the end where there are not so many lines |
| Edits.PressAll | src/shell/shell.c:3593-3631 | any keys, one after the other, are those edits on the document and the step UNDO has |
| Edits.UndoIsBeforeTheStep | src/shell/editor.c:31-39 | after any keys, what UNDO would bring back is the document from before the last of them that began a step |
| Edits.UndoTakesBackTheStep | src/shell/editor.c:130-150 | after any keys, UNDO takes back everything since the last step began and no more, and UNDO again brings it all back |
| Edits.NothingToUndoExactly | src/shell/editor.c:130-133 | there is nothing to undo exactly where there was not at first and no step has begun since |
| Edits.TypingRun | src/shell/editor.c:31-39 | a run of typing is one step |
| Edits.NewlineRun | src/shell/editor.c:118-120 | so is a new line with what is typed on it |
| Edits.DeletingRun | src/shell/editor.c:97-103 | and a run of deletions |
| Edits.MovedBetween | src/shell/editor.c:168-170 | typing with the cursor moved in the middle is two steps |
| Panel.Driver.Present | esp32/main/sharp_lcd.c:143-175 | the rows that differ from those held are sent, and nothing else changes on the glass; they are held whether or not they arrive, and no transmission is too long |
| Panel.Driver.VcomTick | esp32/main/sharp_lcd.c:71-79 | a tick changes nothing on the glass, whether or not it arrives |
| Panel.Driver.constructor | esp32/main/sharp_lcd.c:126-130 | whatever the glass showed, it and the driver start alike where the clear arrives |
| Panel.Driver.Threshold | esp32/main/sharp_lcd.c:150-157 | a row's bits, one cleared for each pixel of ink |
| Panel.ReceivedIsApplied | esp32/main/sharp_lcd.c:164-172 | the glass takes each line as it was meant |
| Panel.DifferingMakes | esp32/main/sharp_lcd.c:149-168 | sending only the rows that differ from those held brings exactly those rows of the glass to the frame |
| Losses.Drive | esp32/main/sharp_lcd.c:71-175 | any run of frames and ticks on the driver, some lost, is that run on what the glass shows and what is held |
| Losses.LastToArrive | esp32/main/sharp_lcd.c:149-168 | a row of the glass is as in the last frame to change it that arrived, whatever was lost since |
| Losses.GoesOnShowing | esp32/main/sharp_lcd.c:126-175 | a glass that shows what is held goes on doing so, over any frames and ticks, while every frame with something to send arrives |
| Losses.LostRowExactly | esp32/main/sharp_lcd.c:56-65 | after a lost frame a row is right exactly where some frame since has changed it, or it was so already |
| Losses.SameAgain | esp32/main/sharp_lcd.c:159-168 | the lost frame again, any number of times, leaves the glass as it was |
| Window.Driver.Present | esp32/main/qemu_lcd.c:79-125 | with the device free to take an update at any moment while the frame is compared, packed half by half and asked for: rows outside what is pending match already, and what is pending is what is shown |
| Window.Driver.Refresh | esp32/main/qemu_lcd.c:76-78 | whenever the device takes the update the window shows the last frame |

## Left out

- The interpreter, the runtime, decimal arithmetic and the mathematical library: evaluation is any change of a stack with success or failure, functions are parameters.
- Rounding: fits, root finding and quadrature are over the reals, and no last digit is claimed.
- Integer widths: counts, offsets and the dash counter do not wrap round.
- Wording of messages: what the translator complains of is a datatype, and which complaint comes first is all that is kept of it.
- Exponential, power and logarithmic regressions: they are the line through logarithms, and need properties of `exp` and `log`.
- One-variable and two-variable statistics, distributions and combinations (src/shell/stats.c:10-90, 248-330).
- Recovery.Natives.Start: there is a store to read; where a module came from (system, inbox or user) and its words are not kept.
- Histories.NeverOpenedAgain: until the list is cleared by the user, which is `Recovery.Natives.Unblock`; a module's `close` taking the machine down leaves no name and is not remembered, in the code or here.
- A write to the store cut in two, and a machine going down in the middle of saving a session: the code makes no promise there.
- Session.Store.SaveSession: a write goes through or leaves its entry as it was; the keys are a datatype, not the texts that name them; a decimal is its text, and reading it is the runtime's.
- Rename.SourceRename: the buffer has room for at least the terminator.
- Integral.NumIntegral: the fifteen points of the rule are a parameter, so nothing is said of its constants.
- Brent.BrentRoot: of a function that is no straight line, that it converges within its hundred turns is not claimed, nor promised by the code.
- Valleys.ValleyFound: over a wider interval, what the golden number is rounded off by, carried from section to section by the points kept, can come to as much as the points are apart; nothing is claimed there.
- The numerical derivative (src/shell/numeric.c:228-256).
- Undo.Shell.Snapshot: the snapshot arrays are sequences of at most 99; a word that draws, prints or changes mode is only its effect on the stack.
- Visitor.Calculator.RunApp: the window, points and trace of a running app are not kept; declaring a slot is taken to succeed.
- Upload.PutFile: the command line before READY, the directory made for an app, and what the host is told beyond the reply's kind.
- Window.Driver.Present: the window is rows of the panel, without its scale and colours.
- Panel.Driver.Present: a transmission arrives whole or not at all; the lock makes frames and ticks whole steps.
- Plots.DrawPoints: points are given by their place on the screen, the view's scale left out; axes, shading and the rest of the drawing are not modelled.
- Crc.Crc32: registers and bytes are their bits, low end first, in place of the machine's words.
- All rendering, menus, key dispatch, fonts, word help and settings pages; completion, history, the log and register keys.
