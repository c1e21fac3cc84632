# Verified models of Zero's foreign code

The repository carries three bodies of third-party code that lean on exact arithmetic and exact bookkeeping.
This project models them in Dafny and proves what they are for.

- **Division by constants** (`foreign/warren`, `foreign/ridiculous_fish`): the search for a multiplier and a
  shift that replace a division, signed and unsigned, for every register width.
- **Password strings** (`foreign/rogue5.4.4/xcrypt.c`): a DES that works with precomputed tables and caches,
  proved equal to the cipher of FIPS PUB 46-3 written out on bit strings.
- **Rogue levels** (`rooms.c`, `passages.c`, `new_level.c`): where the rooms go, the mazes, the corridors and
  the numbers of the passages, for every sequence of random numbers.
- **Rogue save files** (`save.c`, `state.c`): the keystream, the codec, and the linked lists with the pointers
  between them, written on one host and read on another.
- **The hero's belongings** (`pack.c`, `list.c`): adding and taking away, with letters, order and count.

## How it is organised

`Powers`, `Wrappers`, `Words` and `HostBytes` hold arithmetic, bit operators and host memory. Division is in
`SignedMagic` and `UnsignedMagic`. DES goes from the bit strings of the standard (`DesStandard`) over the mask
tables (`MaskTables`) and their use on words (`DesWords`) to the classes of the program (`Des`) and the string
(`Crypt`). `DesKeys`, `DesSelection` and `DesKnownAnswer` check the standard's own constants against its weak
keys, the design of its selection functions and a published example, `CryptLaws` the string format. A level goes
from the map (`Geometry`, `LevelMap`) over `Maze`, `Rooms`, `Corridors`, `MazeDoors`, `Passnum` and `Passages`
to `Levels`. A save file goes from `Keystream`, whose feedback `KeyCycle` adds up, and `SaveCodec` over
`SavedLists` and `SavedThings` to `SavedGame`. `PackContents` says what a pack may hold; `Pack` links its nodes.

Code that changes things in place is modelled by classes and methods over arrays, fields and linked nodes, each
tied to a function or a predicate; what the source promises is then proved of those. Random numbers come from a
tape (`LevelMap.Random`): a draw takes the next entry, and a run that needs more than the tape holds ends with
the source dry. `dafny verify dfyconfig.toml` checks everything.

## Model

| member | source | states |
|---|---|---|
| `SignedMagic.FindMagic` | foreign/warren/hdcodetxt/magic.c:23-57 | for every width b >= 3 and every b-bit divisor d with d >= 2 or d <= -2, powers of two included, the loop in b-bit unsigned arithmetic gives a multiplier and the least sufficient shift with which multiply-high, correction, shift and sign add divide every b-bit dividend toward zero |
| `SignedMagic.MagicDivides` | foreign/ridiculous_fish/divide_by_constants_codegen_reference.c:38-55 | the emitted sequence equals truncated division for one dividend, given only that the exponent is the least sufficient one |
| `SignedMagic.FindExponent` | foreign/ridiculous_fish/divide_by_constants_codegen_reference.c:229-268 | the loop stops at the least exponent from b on that is enough, at most 2b - 2, and its second quotient is 2^p / abs(d) |
| `SignedMagic.FirstNoOverflow` | foreign/warren/hdcodetxt/magic.c:40-44 | while the exponent is not enough, doubling the first quotient and remainder never leaves b bits |
| `SignedMagic.SecondNoOverflow` | foreign/warren/hdcodetxt/magic.c:45-50 | the same for the second pair, with room left for the increment after the loop |
| `SignedMagic.NeverHalf` | foreign/warren/hdcodetxt/magic.c:53-54 | the incremented quotient is never 2^(b-1), so it can be negated in the signed type |
| `UnsignedMagic.MagicFixedWidth` | foreign/ridiculous_fish/divide_by_constants_codegen_reference.c:66-108 | as documented, with the register width kept: for every width, dividend size and divisor but zero and the powers of two, the result makes both documented instruction sequences divide every dividend exactly; the multiplier is not zero and fits, and pre-shift and increment never come together |
| `UnsignedMagic.MagicAsCompiled` | foreign/ridiculous_fish/divide_by_constants_codegen_reference.c:121-214 | as compiled, with the register width set to num_bits: for every divisor the type holds, no assertion fails and every dividend is divided exactly if and only if `CompiledFits`, a test on the divisor and num_bits alone; a num_bits outside the type fails the first assertion |
| `UnsignedMagic.MagicByRounding` | foreign/ridiculous_fish/divide_by_constants_codegen_reference.c:188-200 | odd divisors always get an exact multiplier by rounding up or down, even ones exactly if rounding up fits, also for divisors larger than every dividend |
| `UnsignedMagic.FindExponent` | foreign/ridiculous_fish/divide_by_constants_codegen_reference.c:139-186 | the wrapping loop finds the first exponent at which rounding up works, up to the bit length, and the first one before it at which rounding down works |
| `UnsignedMagic.RoundUpMagic` | foreign/ridiculous_fish/divide_by_constants_codegen_reference.c:174-193 | where the loop's test for rounding up holds, quotient + 1 divides every dividend exactly |
| `UnsignedMagic.RoundDownMagic` | foreign/ridiculous_fish/divide_by_constants_codegen_reference.c:180-200 | where rounding up never works and the test for rounding down holds, the quotient with the incremented dividend divides exactly, at the saturated maximum too |
| `UnsignedMagic.MaximumNotDivisible` | foreign/ridiculous_fish/divide_by_constants_codegen_reference.c:96-98 | rounding down is never used for a divisor of the register's maximum, so that saturating instead of wrapping does no harm |
| `UnsignedMagic.UpOrDown` | foreign/ridiculous_fish/divide_by_constants_codegen_reference.c:194-196 | one of the two roundings always works at the last exponent: the assertion on magic_down cannot fail |
| `UnsignedMagic.EvenDivisor` | foreign/ridiculous_fish/divide_by_constants_codegen_reference.c:201-211 | what is left of an even divisor without its factors of two is again a divisor the function accepts |
| `UnsignedMagic.SpareBitsLost` | foreign/ridiculous_fish/divide_by_constants_codegen_reference.c:209-211 | a multiplier found for fewer bits is wrong for the full register, whenever the odd part is below the dividends of those bits |
| `UnsignedMagic.SpareBitsHarmless` | foreign/ridiculous_fish/divide_by_constants_codegen_reference.c:209-211 | and right whenever it is not, since all quotients are then zero |
| `UnsignedMagic.FourteenFails` | foreign/ridiculous_fish/divide_by_constants_codegen_reference.c:134 | the divisor 14 at 32 bits is one the compiled variant fails on |
| `DesStandard.DecipherUndoesEncipher` | foreign/rogue5.4.4/xcrypt.c:465-480 | for every block, list of round keys, salt and count, enciphering with the reversed keys gives the block back |
| `DesStandard.RoundsUndo` | foreign/rogue5.4.4/xcrypt.c:509-545 | with the halves exchanged and the keys reversed the rounds run backwards, whatever the cipher function does |
| `DesStandard.PassesUndo` | foreign/rogue5.4.4/xcrypt.c:502-548 | the same for any number of passes between the permutations |
| `DesStandard.PermutationsUndo` | foreign/rogue5.4.4/xcrypt.c:259-262 | the initial and the final permutation are inverse to each other |
| `DesStandard.CountedEncipher` | foreign/rogue5.4.4/xcrypt.c:502-548 | count + 1 passes are one encipherment followed by count more: the inner permutations cancel |
| `DesStandard.ShiftedIsRotation` | foreign/rogue5.4.4/xcrypt.c:422-429 | shifting a key half round by round as the standard does is one rotation by the accumulated count |
| `DesKeys.ShiftsMirrored` | foreign/rogue5.4.4/xcrypt.c:98-100 | the shifts up to a round and those up to its mirror image add up to 29 |
| `DesKeys.SchedulesMirrored` | foreign/rogue5.4.4/xcrypt.c:422-450 | for two semi-weak keys, whose halves alternate and are each other's one place on, the round keys of one are those of the other backwards |
| `DesKeys.SemiWeakUndo` | foreign/rogue5.4.4/xcrypt.c:454-569 | enciphering with the second of such keys undoes enciphering with the first, for every salt and count |
| `DesKeys.WeakKeyUndo` | foreign/rogue5.4.4/xcrypt.c:454-569 | a key with halves all zeros or all ones enciphers back what it enciphered |
| `DesSelection.InnerBitsTold` | foreign/rogue5.4.4/xcrypt.c:115-164 | each row of each selection function is a permutation: with the outer two bits fixed, equal outputs come from equal inputs |
| `DesSelection.OneBitChanged` | foreign/rogue5.4.4/xcrypt.c:115-164 | changing any one of the six bits that enter a selection function changes at least two of the four that leave it |
| `DesKnownAnswer.KnownAnswer` | foreign/rogue5.4.4/xcrypt.c:83-170 | the example of FIPS PUB 81, "Now is t" under the key 0123456789ABCDEF, comes out as 3FA40E8A984D4815, which hangs on every table and on the order of every step |
| `MaskTables.Invert` | foreign/rogue5.4.4/xcrypt.c:264-278 | the loops that invert a permutation give for every entry its place, and 255 for places without one |
| `MaskTables.ReorderSBoxes` | foreign/rogue5.4.4/xcrypt.c:235-242 | the reordered selection functions, read with the input bits in order, are those of the standard |
| `MaskTables.FillPBox` | foreign/rogue5.4.4/xcrypt.c:334-348 | each mask of the P table has exactly the output bits that P gives the input bits of its index |
| `DesWords.ExpandIsE` | foreign/rogue5.4.4/xcrypt.c:510-523 | the ten masks and shifts are the expansion E of the standard, for every word |
| `DesWords.FusedSlice` | foreign/rogue5.4.4/xcrypt.c:244-253 | an entry of the fused table holds the outputs of two selection functions side by side |
| `DesWords.GatherRound` | foreign/rogue5.4.4/xcrypt.c:531-538 | four lookups or-ed together are the eight selection functions followed by P |
| `Des.RoundFunction` | foreign/rogue5.4.4/xcrypt.c:510-538 | on words it computes the salted cipher function of the bit strings |
| `Des.TablesUsed` | foreign/rogue5.4.4/xcrypt.c:304-331 | every bit a permutation selects lies in a place the mask tables cover |
| `Des.Cipher.Initialise` | foreign/rogue5.4.4/xcrypt.c:224-351 | the first call fills all tables, later ones change neither them nor the caches |
| `Des.Cipher.SetupSalt` | foreign/rogue5.4.4/xcrypt.c:353-372 | afterwards the salt bits are those of this salt, whichever salt was remembered |
| `Des.Cipher.StoreKey` | foreign/rogue5.4.4/xcrypt.c:431-449 | a round's key stands in both schedules, from the two ends |
| `Des.Cipher.FillKeys` | foreign/rogue5.4.4/xcrypt.c:400-450 | table lookups and rotations give the sixteen round keys of the standard's key schedule, and the deciphering list is their reverse |
| `Des.Cipher.SetKey` | foreign/rogue5.4.4/xcrypt.c:374-452 | afterwards the schedules are those of this key, whether it was remembered or not |
| `Des.Cipher.OnePass` | foreign/rogue5.4.4/xcrypt.c:506-547 | sixteen rounds and the exchange equal one pass of the specification |
| `Des.Cipher.DoDes` | foreign/rogue5.4.4/xcrypt.c:454-569 | for every input, key, salt and nonzero count, the two words are the salted DES of the bit string, backwards for a negative count; count zero is the only failure |
| `Des.CryptedUndone` | foreign/rogue5.4.4/xcrypt.c:465-480 | do_des with count -k undoes do_des with count k |
| `Des.WordsRestored` | foreign/rogue5.4.4/xcrypt.c:454-569 | two calls with opposite counts give the two words themselves back |
| `Des.UnsaltedIsStandard` | foreign/rogue5.4.4/xcrypt.c:524-530 | with salt zero the cipher function is P(S(E(R) + K)) of the standard |
| `Crypt.XCrypt` | foreign/rogue5.4.4/xcrypt.c:594-707 | whatever earlier calls left in the caches and on hosts of either byte order, the result is the string that key and setting alone determine, and fails exactly for a count of zero |
| `Crypt.FoldKey` | foreign/rogue5.4.4/xcrypt.c:629-645 | a long key is folded eight characters at a time into a key encrypted with itself, which stays set |
| `Crypt.ParseSetting` | foreign/rogue5.4.4/xcrypt.c:617-678 | the or-ed and shifted characters are the base 64 numbers for count and salt, and the prefix is what the result starts with |
| `Crypt.EncodeResult` | foreign/rogue5.4.4/xcrypt.c:685-704 | three shifted words spell the 64 bits and two zeros, six bits a character |
| `Crypt.SpellingIsExact` | foreign/rogue5.4.4/xcrypt.c:685-704 | different blocks are spelled differently |
| `CryptLaws.StylesAgree` | foreign/rogue5.4.4/xcrypt.c:617-678 | an old-style setting means 25 passes: for keys of at most eight characters its last eleven characters are those for the new-style setting that spells 25 and the same salt |
| `CryptLaws.KeyBits` | foreign/rogue5.4.4/xcrypt.c:603-615 | character i of a key gives its seven low bits to byte i of the block, whose last bit stays clear |
| `CryptLaws.AlphabetInOrder` | foreign/rogue5.4.4/xcrypt.c:201-204 | digit i is character i of the dot, the slash, the digits, the capitals and the small letters |
| `CryptLaws.OutsideAlphabet` | foreign/rogue5.4.4/xcrypt.c:206-222 | a character that is not a digit of base 64 counts as zero |
| `CryptLaws.FoldUndone` | foreign/rogue5.4.4/xcrypt.c:629-645 | from a folded key and the characters taken, one decipherment gives the key before |
| `Maze.DigKeepsTree` | foreign/rogue5.4.4/rooms.c:243-296 | whatever dig chooses, a tree of dug squares stays a tree, and no cell dug meanwhile keeps an undug neighbour |
| `Maze.AllCellsDug` | foreign/rogue5.4.4/rooms.c:253-271 | a dug set in which no cell has an undug neighbour holds every cell of the box |
| `Maze.TreeOfAllCells` | foreign/rogue5.4.4/rooms.c:243-296 | such a tree is a spanning tree: all cells, connected, one link fewer than cells |
| `Maze.RunIsDone` | foreign/rogue5.4.4/rooms.c:213-236 | every run of do_maze, for every start and every choice, leaves a spanning tree of all cells of the box |
| `Maze.Choose` | foreign/rogue5.4.4/rooms.c:255-269 | it counts exactly the undug neighbour cells, picks the one the draws select and takes one draw for each |
| `LevelMap.AnyCandidatePicked` | foreign/rogue5.4.4/rooms.c:264-268 | every candidate of a search that draws for each as it comes is picked by some draws |
| `LevelMap.PutPass` | foreign/rogue5.4.4/passages.c:273-285 | one square becomes a passage, secret for exactly the draws that say so and never on level 1; nothing else changes |
| `Maze.Dig` | foreign/rogue5.4.4/rooms.c:243-296 | on the map, what is dug is what the depth-first search makes of this tape, and nothing else changes |
| `Maze.DoMaze` | foreign/rogue5.4.4/rooms.c:213-236 | the maze on the map is the one this tape makes, which is a run of dig from a start that can be drawn |
| `Maze.MadeIsRun` | foreign/rogue5.4.4/rooms.c:213-296 | whatever a tape makes is a run of the depth-first relation |
| `Maze.RunIsMade` | foreign/rogue5.4.4/rooms.c:213-296 | and every run of the relation is made by some tape |
| `Rooms.RoomsApart` | foreign/rogue5.4.4/rooms.c:58-114 | no two rooms of any layout overlap |
| `Rooms.RoomInBands` | foreign/rogue5.4.4/rooms.c:63-114 | every square of room i lies on the map, in the band of its third, with a line and a column to spare |
| `Rooms.DrawRoom` | foreign/rogue5.4.4/rooms.c:152-201 | walls and floor are drawn on the room's squares, with the horizontal walls at the corners, and nowhere else |
| `Rooms.RndRoom` | foreign/rogue5.4.4/new_level.c:106-116 | the room is the first one drawn that is there, and the search runs on to the end of the tape exactly if the tape holds no draw for one |
| `Rooms.SomeRoomKept` | foreign/rogue5.4.4/new_level.c:111-114 | while a room is left some draw finds one |
| `Rooms.PlaceOrdinary` | foreign/rogue5.4.4/rooms.c:108-114 | size and place are those of the first round of draws that is off the top line; a first round that is ends the search |
| `Rooms.SomeRoundFits` | foreign/rogue5.4.4/rooms.c:108-114 | for every room some round of draws is off the top line |
| `Rooms.ClearRooms` | foreign/rogue5.4.4/rooms.c:42-55 | exactly as many different rooms are gone as the first draw says |
| `Rooms.ChooseRoom` | foreign/rogue5.4.4/rooms.c:66-114 | dark, maze or ordinary, and where, exactly as the draws say |
| `Rooms.MakeRoom` | foreign/rogue5.4.4/rooms.c:61-115 | room i is of the kind and in the place its draws say; an ordinary one is drawn with walls and floor, a maze is dug, a gone one leaves the map as it was; the passage squares of the level stay exactly those of the mazes |
| `Rooms.OneMoreShown` | foreign/rogue5.4.4/rooms.c:58-115 | drawing one more room of a layout leaves the squares of the rooms before as they were shown |
| `Rooms.DoRooms` | foreign/rogue5.4.4/rooms.c:30-144 | as many rooms are gone as the first draw says, none both gone and a maze, and all are placed as a layout; every square of an ordinary room shows its wall or floor, every square of a maze a passage, and all others are as before |
| `Corridors.CorridorStep` | foreign/rogue5.4.4/passages.c:239-263 | consecutive squares of a corridor are neighbours |
| `Corridors.CorridorShape` | foreign/rogue5.4.4/passages.c:239-263 | it goes straight, turns aside in one line and goes straight again, strictly between its ends |
| `Corridors.CorridorOnce` | foreign/rogue5.4.4/passages.c:239-263 | no square comes twice |
| `Corridors.RoomForCorridor` | foreign/rogue5.4.4/passages.c:184-220 | in every layout the two ends are far enough apart for a turn, and on the map |
| `Corridors.CorridorInNoRoom` | foreign/rogue5.4.4/passages.c:239-261 | the inner squares of a corridor between two rooms are in no room of the layout |
| `Corridors.PickStart` | foreign/rogue5.4.4/passages.c:173-204 | the start is the first door square drawn in the right wall, in a maze the first that is a passage square; the search runs on to the end of the tape exactly if the tape holds no draw for one |
| `Corridors.PickEnd` | foreign/rogue5.4.4/passages.c:179-209 | the same for the other end |
| `Corridors.PickCorridor` | foreign/rogue5.4.4/passages.c:167-220 | both ends and the turn are those the draws say, and the corridor fits between the rooms |
| `Corridors.DrawEnd` | foreign/rogue5.4.4/passages.c:292-313 | one square changes: to a door, or a wall with a secret one for exactly the draws that say so and never on level 1; to a passage square for a gone room; not at all for a maze; the exit is recorded |
| `Corridors.DrawCorridor` | foreign/rogue5.4.4/passages.c:234-263 | the loops dig exactly the inner squares of the corridor and arrive at its end |
| `Corridors.Conn` | foreign/rogue5.4.4/passages.c:132-266 | for neighbouring rooms of any layout the corridor that the draws say joins them, nothing else on the map changes, both exits are recorded, and the warning of line 265 cannot come |
| `MazeDoors.EndAlwaysPossible` | foreign/rogue5.4.4/passages.c:179-209 | in every maze dig can leave some draw finds the lower or right end |
| `MazeDoors.StartPossibleWhen` | foreign/rogue5.4.4/passages.c:173-204 | some draw finds the upper or left end if and only if it is not below a maze of the top line, or that maze has a link between its two lowest lines of cells away from the outer columns |
| `MazeDoors.SearchesCanEnd` | foreign/rogue5.4.4/passages.c:173-209 | the same on the map do_rooms leaves, with all its mazes |
| `MazeDoors.SearchesStay` | foreign/rogue5.4.4/passages.c:173-209 | no corridor drawn before helps or spoils a search |
| `MazeDoors.SnakeDigs` | foreign/rogue5.4.4/rooms.c:243-296 | walking line by line through the cells is a run of dig |
| `MazeDoors.SnakeHasNoDoor` | foreign/rogue5.4.4/passages.c:173-178 | it is a run do_maze can make in the first room, and no draw then gives a door below it |
| `Passages.ConnIsNeighbouring` | foreign/rogue5.4.4/passages.c:33-43 | the table joins exactly the rooms side by side |
| `Passages.SomeRoomCanGrow` | foreign/rogue5.4.4/passages.c:62-95 | while rooms are missing some room in the graph has a neighbour outside it |
| `Passages.RoomGraph.PickOutside` | foreign/rogue5.4.4/passages.c:65-69 | it counts exactly the neighbours outside the graph and picks the one the draws select |
| `Passages.RoomGraph.PickUnconnected` | foreign/rogue5.4.4/passages.c:104-108 | the same for the neighbours without a corridor |
| `Passages.Grow` | foreign/rogue5.4.4/passages.c:85-94 | one more corridor to a room outside keeps the tree |
| `Passages.PickInside` | foreign/rogue5.4.4/passages.c:75-80 | the room is the first one drawn that is in the graph; the search runs on to the end of the tape exactly if the tape holds no draw for one |
| `Passages.GrowTree` | foreign/rogue5.4.4/passages.c:59-95 | a run that ends leaves a spanning tree of the nine rooms, with a corridor on the map for each of its eight edges |
| `Passages.KeptMore` | foreign/rogue5.4.4/passages.c:132-266 | one more corridor leaves walls and floors as they were, but for doors at the recorded exits |
| `Passages.AddOne` | foreign/rogue5.4.4/passages.c:99-122 | one round adds the corridor its draws select among those missing at the room, or none if none is missing |
| `Passages.AddPassages` | foreign/rogue5.4.4/passages.c:97-123 | as many corridors are added as the first draw says, fewer only if some room has all it can have, and none between rooms joined already |
| `Passages.DoPassages` | foreign/rogue5.4.4/passages.c:22-125 | a run that ends leaves a spanning tree and as many corridors more as a draw says, fewer only if some room has all it can have, every corridor all passage or door squares, all of them numbered, and the rooms as they were but for doors at the exits |
| `Passnum.NumPass` | foreign/rogue5.4.4/passages.c:386-424 | the recursive fill numbers exactly the unnumbered squares reached through unnumbered ones, and lists their doors |
| `Passnum.ComponentFilled` | foreign/rogue5.4.4/passages.c:386-424 | while numbers follow components, a fill from an unnumbered square adds exactly its component |
| `Passnum.NextComponent` | foreign/rogue5.4.4/passages.c:398-402 | and with the next number the squares are again numbered by component |
| `Passnum.ComponentsBounded` | foreign/rogue5.4.4/passages.c:369-378 | there are no more components than connected pieces that cover the exits |
| `Passnum.AllNumbered` | foreign/rogue5.4.4/passages.c:363-379 | once all exits are done, the numbered squares are those reached from an exit, and two have the same number exactly if they are connected |
| `Passnum.NumberExit` | foreign/rogue5.4.4/passages.c:374-378 | one exit keeps the numbering by component; a new number is used exactly for a component without one |
| `Passnum.PassNum` | foreign/rogue5.4.4/passages.c:363-379 | for every map and list of exits covered by fewer than thirteen pieces, the numbering is as in `AllNumbered`, the doors of each number are listed under it, and no number exceeds the pieces |
| `Levels.NewLevel` | foreign/rogue5.4.4/new_level.c:34-54 | whatever the map held before, a run that ends leaves a layout with as many gone rooms as drawn, connected by numbered passages; every square of the map shows the wall or floor of its room, a door at an exit, a passage or blank, as `Levels.LevelShown` says; nothing is secret on level 1 |
| `Levels.WholeLevel` | foreign/rogue5.4.4/new_level.c:54-55 | rooms drawn on a blank map, then corridors and numbers: what every square shows in the end |
| `Levels.CorridorHasOneNumber` | foreign/rogue5.4.4/passages.c:386-424 | all squares of a corridor share a number of at most twelve, which four bits and the table hold |
| `Levels.JoinedRoomsShareNumber` | foreign/rogue5.4.4/passages.c:363-379 | two joined rooms that are not gone have exits with the same number |
| `Levels.ExitNumbered` | foreign/rogue5.4.4/passages.c:373-378 | every exit of every room has a number between 1 and 12 |
| `Keystream.EncipheredTwice` | foreign/rogue5.4.4/save.c:274-334 | enciphering a chunk twice gives it back, for all keys that are not empty |
| `Keystream.EncWrite` | foreign/rogue5.4.4/save.c:274-300 | the file grows by the enciphered chunk, cut short exactly where the disk is full; byte i is written exclusive or character i of both keys and the sum of the products of their characters before, modulo 256 |
| `Keystream.EncipheredByte` | foreign/rogue5.4.4/save.c:290-292 | the running feedback of the cipher is that plain sum of products |
| `KeyCycle.FeedbackAfterCycle` | foreign/rogue5.4.4/save.c:290-297 | for keys with lengths without a common factor, the feedback after one whole cycle of both is the product of the keys' sums modulo 256 |
| `KeyCycle.GameKeysCoprime` | foreign/rogue5.4.4/vers.c:15-16 | the game's own keys are such: 39 and 37 characters |
| `Keystream.DecipherInPlace` | foreign/rogue5.4.4/save.c:319-331 | the loop in place computes the same cipher |
| `Keystream.EncRead` | foreign/rogue5.4.4/save.c:306-334 | a chunk that is there in full is deciphered and the file moved past it; a short file is reported |
| `Keystream.ChunksRecovered` | foreign/rogue5.4.4/save.c:274-334 | a row of chunks is read back as written, whatever follows it |
| `SaveCodec.Writer.WriteInt` | foreign/rogue5.4.4/state.c:99-120 | both hosts write the same bytes, or an error sticks |
| `SaveCodec.Reader.ReadInt` | foreign/rogue5.4.4/state.c:122-146 | both hosts read back the int that was written |
| `SaveCodec.Writer.WriteString` | foreign/rogue5.4.4/state.c:508-522 | the length goes in twice and then the characters with their zero |
| `SaveCodec.Reader.ReadNewString` | foreign/rogue5.4.4/state.c:542-568 | a string, or none, comes back as written |
| `SaveCodec.Reader.ReadMarker` | foreign/rogue5.4.4/state.c:489-506 | exactly the expected marker is accepted |
| `SaveCodec.Writer.WriteStrings` | foreign/rogue5.4.4/state.c:570-585 | an array of strings is written with its size |
| `SaveCodec.Reader.ReadNewStrings` | foreign/rogue5.4.4/state.c:608-627 | and comes back, string by string |
| `SaveCodec.Writer.WriteInts` | foreign/rogue5.4.4/state.c:200-214 | an array of ints is written with its size, element by element |
| `SaveCodec.Reader.ReadInts` | foreign/rogue5.4.4/state.c:217-235 | and comes back, element by element |
| `SaveCodec.Writer.WriteBooleans` | foreign/rogue5.4.4/state.c:265-279 | an array of booleans is written with its size, each as a char |
| `SaveCodec.Reader.ReadBooleans` | foreign/rogue5.4.4/state.c:282-300 | and comes back as booleans |
| `SavedLists.WriteObjectList` | foreign/rogue5.4.4/state.c:1387-1400 | the marker, the size and the objects in order are written |
| `SavedLists.ReadObjectList` | foreign/rogue5.4.4/state.c:1402-1439 | new nodes, linked both ways, hold the objects in order |
| `SavedLists.FindListPtr` | foreign/rogue5.4.4/state.c:784-794 | the place of a node in its list, -1 if it is not there |
| `SavedLists.GetListItem` | foreign/rogue5.4.4/state.c:772-782 | the node at a place, none outside the list |
| `SavedThings.FindDest` | foreign/rogue5.4.4/state.c:1471-1590 | the pair of numbers for a target: the place in the list it is found in, else the hero |
| `SavedThings.TargetSavedAgain` | foreign/rogue5.4.4/state.c:1524-1705 | a restored target is coded again as it was read |
| `SavedThings.TargetComesBack` | foreign/rogue5.4.4/state.c:1523-1705 | a monster's target comes back, as the node in the same place of the rebuilt list, if and only if the save file can name it |
| `SavedThings.PlayerTargetComesBack` | foreign/rogue5.4.4/state.c:2096-2106 | the player's target comes back if and only if it can be named and is no object of the level |
| `SavedThings.RoomComesBack` | foreign/rogue5.4.4/state.c:1268-1299 | a room comes back if and only if it is one of the nine, or the place before the first, which corridors turn into |
| `SavedThings.SavedAgain` | foreign/rogue5.4.4/state.c:1523-1705 | a restored monster is saved exactly as it was |
| `SavedThings.WriteThingList` | foreign/rogue5.4.4/state.c:1707-1730 | every monster is written in its saved form, in order |
| `SavedThings.ReadThingList` | foreign/rogue5.4.4/state.c:1732-1768 | new nodes, linked both ways and apart from their packs, hold the monsters as read |
| `SavedThings.FixThingList` | foreign/rogue5.4.4/state.c:1689-1777 | afterwards every target into the list points to the rebuilt node |
| `SavedGame.Save` | foreign/rogue5.4.4/state.c:1966-1977 | what is written is the form of the game: every list in order, every reference a place in its list |
| `SavedGame.Restore` | foreign/rogue5.4.4/state.c:2096-2109 | whatever form the file has, the game is built from it: each reference the node at its place, the player's target looked up among the old objects |
| `SavedGame.SaveAndRestore` | foreign/rogue5.4.4/state.c:1966-2109 | saved on one host and restored on another, of either byte order: it succeeds exactly if the disk has room, and then every node has its twin, every pointer the twin of its target, and the player's target is right exactly if it can be named and is no object |
| `PackContents.InsertionKeepsOrder` | foreign/rogue5.4.4/pack.c:53-115 | an entry put where add_pack puts it keeps kinds and groups together |
| `PackContents.PlaceIsUnique` | foreign/rogue5.4.4/pack.c:53-115 | there is only one place a new entry can go |
| `PackContents.AddedIsUnique` | foreign/rogue5.4.4/pack.c:25-157 | the contents before and the object determine the contents after |
| `PackContents.InsertionKeepsGood` | foreign/rogue5.4.4/pack.c:117-132 | a new entry with a free letter keeps the invariant: order, letters and count |
| `PackContents.JoiningKeepsGood` | foreign/rogue5.4.4/pack.c:72-106 | so does joining an entry, by the piece or as a group |
| `PackContents.RemovalKeepsGood` | foreign/rogue5.4.4/pack.c:218-223 | so does taking out an entry that counts one, which frees its letter |
| `PackContents.TakingKeepsGood` | foreign/rogue5.4.4/pack.c:201-208 | so does taking one piece of several |
| `PackContents.GoodHasFree` | foreign/rogue5.4.4/pack.c:231-240 | under the invariant the entries never outnumber the count, and a letter is free |
| `PackContents.TakenAndPutBack` | foreign/rogue5.4.4/pack.c:25-225 | a piece taken from an entry of several and added again leaves everything as it was but for the found mark |
| `PackContents.WholeEntryCountsOne` | foreign/rogue5.4.4/pack.c:201-223 | taking a whole entry off the count as one is right exactly if not several of its pieces count |
| `Pack.Detach` | foreign/rogue5.4.4/list.c:26-42 | the node is gone from the list, the links around it are closed, its own are cleared |
| `Pack.FindSlot` | foreign/rogue5.4.4/pack.c:53-115 | the walk finds an entry the object joins, or the one place to go behind: a group behind the last entry of the same thing, a single object behind the first, else behind the kind, else at the end |
| `Pack.HeroPack.PackChar` | foreign/rogue5.4.4/pack.c:231-240 | the first free letter, now used |
| `Pack.HeroPack.PackRoom` | foreign/rogue5.4.4/pack.c:165-190 | one more in the count, off the floor if it lay there, unless the count is full |
| `Pack.HeroPack.JoinEntry` | foreign/rogue5.4.4/pack.c:72-106 | the entry takes the object in; a group does not count, pieces need room |
| `Pack.HeroPack.InsertEntry` | foreign/rogue5.4.4/pack.c:117-132 | the labelled object is linked in behind the slot, or all stays as it was |
| `Pack.HeroPack.AddPack` | foreign/rogue5.4.4/pack.c:25-157 | the object joins an entry or goes in that one place with the first free letter, or is refused when full, or turns to dust; the invariant is kept if and only if nothing was lifted off the floor into an empty pack |
| `Pack.HeroPack.LeavePack` | foreign/rogue5.4.4/pack.c:196-225 | one piece or the whole entry comes out, with the letter freed; the invariant is kept if and only if no whole entry is taken whose several pieces each count |

## Findings

Where the code does not do what it is for, the model keeps the code and proves exactly when it does.

- **Unsigned magic numbers as compiled.** The header comment keeps UVAL_BITS at the register's width; line 134
  of `divide_by_constants_codegen_reference.c` sets it to num_bits, which the recursion for an even divisor
  lowers. `UnsignedMagic.MagicAsCompiled` proves the exact condition, `CompiledFits`: the divisor is odd, or
  rounding up fits it, or it is larger than every dividend and rounding up fits its odd part in the bits left.
  `UnsignedMagic.FourteenFails` gives the input 14 at 32 bits. With the commented-out line 133 in place no
  divisor fails (`UnsignedMagic.MagicFixedWidth`).
- **A door below a maze.** conn redraws a door in a maze until it falls on a passage. Below a maze of the top
  line of rooms the wall lies on a line of links, and dig can leave a maze without a link there:
  `MazeDoors.SnakeHasNoDoor` gives the run, `MazeDoors.StartPossibleWhen` the exact condition, and
  `Corridors.PickStart` says that the search then never ends, for any random numbers.
- **The player's target.** rs_restore_file reads the player before the objects of the level, so that a target
  among them is looked up in the list of before (`SavedThings.PlayerTargetComesBack`).
- **Monsters in corridors.** Their room is saved as -1 and comes back as the address before the first room
  (`SavedThings.RoomComesBack`).
- **Picking up with an empty pack.** add_pack makes the object the whole pack without detaching it from the
  objects on the level, so that it is in both lists (`Pack.HeroPack.AddPack`).
- **Taking a whole entry.** leave_pack takes one off the count; for an entry of several potions, scrolls or
  rations taken whole the count is then wrong (`Pack.HeroPack.LeavePack`). Dropping never asks for that.

## Left out

- SignedMagic.FindMagic: abs of the most negative int is taken as its magnitude as an unsigned int, where C leaves it undefined.
- UnsignedMagic.MagicAsCompiled: a failed assertion is a result of its own; what the code would return with assertions compiled out is not stated.
- Crypt.XCrypt: settings that are empty, or extended and shorter than nine characters, make the source read past the end of the string and are excluded.
- Crypt.XCrypt: the static output buffer, and that the result is overwritten by the next call.
- Levels.NewLevel: traps, stairs, objects, monsters, gold, treasure rooms and where the hero starts; the random numbers they take come in between in the source.
- Levels.NewLevel: that some tape lasts for a whole run is not stated; each search is proved to end exactly if the tape holds a good draw, such draws exist wherever the condition of the second finding holds, and every maze has a tape (`Maze.RunIsMade`).
- Rooms.DoRooms: the gold and the monster put into each room.
- Maze.DoMaze: accnt_maze, whose records nothing reads.
- Corridors.DrawEnd: the fixed size of r_exit; the list of exits grows without bound here.
- Corridors.Conn: debug messages and the wizard's add_pass.
- LevelMap.Random: the linear congruential generator behind rnd; every sequence of outputs is allowed.
- Keystream.EncRead: partial reads leave the rest of the buffer unspecified.
- SaveCodec.Reader.ReadInt: a value that could not be read is taken as zero, where the source leaves the variable as it was or uninitialised.
- SaveCodec.Writer.WriteInts: arrays of shorts, rs_write_ushort and rs_read_ushort, the readers into fixed-size strings and the string-index pair (state.c:347-427, 524-540, 587-606, 629-662) are not modelled; they repeat the shapes that are.
- SaveCodec.Reader.ReadNewString: a failed allocation other than for a negative length.
- SavedGame.Save: the scalars of rs_save_file, the item tables, rooms, monsters' table, daemons and the window (state.c:664-1336, 1881-1965, 1979-2005).
- SavedGame.Restore: the checks of restore in save.c on the file, and the header with version and screen size.
- SavedThings.WriteThing: pointers are names of nodes; that the coordinates of two nodes could be one address is not modelled.
- Pack.HeroPack.AddPack: the messages, the amulet flag, and the monsters after the object who turn to the hero.
- Pack.HeroPack.AddPack: objects come in as the game makes them: single pieces of what counts by the piece, and groups that do not grow past an int.
- Pack.HeroPack.AddPack: find_obj, which finds the object under the hero, is a parameter.
- Pack.HeroPack.LeavePack: freeing of nodes; a discarded node just stays unused.
