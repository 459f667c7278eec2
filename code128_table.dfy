/**
 * The symbol table of the barcode: `LEGAL_CODES_128`, the 106 Code 128
 * symbol characters written as six-digit decimal numbers whose digits are
 * the bar and space widths, and its inverse `CODE_TO_VALUE`.
 */
module Code128Table {
  import opened Wrappers

  /** Number of entries of `LEGAL_CODES_128` (values 0..105). */
  const SYMBOL_COUNT: nat := 106

  /**
   * `LEGAL_CODES_128[v]`: the six widths of symbol `v`, written as the
   * decimal number whose digits are the widths.
   */
  function LegalCode(v: int): int
    requires 0 <= v < SYMBOL_COUNT
  {
    match v
    case 0 => 212222
    case 1 => 222122
    case 2 => 222221
    case 3 => 121223
    case 4 => 121322
    case 5 => 131222
    case 6 => 122213
    case 7 => 122312
    case 8 => 132212
    case 9 => 221213
    case 10 => 221312
    case 11 => 231212
    case 12 => 112232
    case 13 => 122132
    case 14 => 122231
    case 15 => 113222
    case 16 => 123122
    case 17 => 123221
    case 18 => 223211
    case 19 => 221132
    case 20 => 221231
    case 21 => 213212
    case 22 => 223112
    case 23 => 312131
    case 24 => 311222
    case 25 => 321122
    case 26 => 321221
    case 27 => 312212
    case 28 => 322112
    case 29 => 322211
    case 30 => 212123
    case 31 => 212321
    case 32 => 232121
    case 33 => 111323
    case 34 => 131123
    case 35 => 131321
    case 36 => 112313
    case 37 => 132113
    case 38 => 132311
    case 39 => 211313
    case 40 => 231113
    case 41 => 231311
    case 42 => 112133
    case 43 => 112331
    case 44 => 132131
    case 45 => 113123
    case 46 => 113321
    case 47 => 133121
    case 48 => 313121
    case 49 => 211331
    case 50 => 231131
    case 51 => 213113
    case 52 => 213311
    case 53 => 213131
    case 54 => 311123
    case 55 => 311321
    case 56 => 331121
    case 57 => 312113
    case 58 => 312311
    case 59 => 332111
    case 60 => 314111
    case 61 => 221411
    case 62 => 431111
    case 63 => 111224
    case 64 => 111422
    case 65 => 121124
    case 66 => 121421
    case 67 => 141122
    case 68 => 141221
    case 69 => 112214
    case 70 => 112412
    case 71 => 122114
    case 72 => 122411
    case 73 => 142112
    case 74 => 142211
    case 75 => 241211
    case 76 => 221114
    case 77 => 413111
    case 78 => 241112
    case 79 => 134111
    case 80 => 111242
    case 81 => 121142
    case 82 => 121241
    case 83 => 114212
    case 84 => 124112
    case 85 => 124211
    case 86 => 411212
    case 87 => 421112
    case 88 => 421211
    case 89 => 212141
    case 90 => 214121
    case 91 => 412121
    case 92 => 111143
    case 93 => 111341
    case 94 => 131141
    case 95 => 114113
    case 96 => 114311
    case 97 => 411113
    case 98 => 411311
    case 99 => 113141
    case 100 => 114131
    case 101 => 311141
    case 102 => 411131
    case 103 => 211412
    case 104 => 211214
    case _ => 211232
  }

  /**
   * `CODE_TO_VALUE` written out as a match, with -1 for a missing key;
   * `CodeToValueSpec` and `LegalCodesDistinct` prove it is the map that
   * `associate { it.value to it.index }` builds from the table.
   */
  function CodeIndex(c: int): int
  {
    match c
    case 212222 => 0
    case 222122 => 1
    case 222221 => 2
    case 121223 => 3
    case 121322 => 4
    case 131222 => 5
    case 122213 => 6
    case 122312 => 7
    case 132212 => 8
    case 221213 => 9
    case 221312 => 10
    case 231212 => 11
    case 112232 => 12
    case 122132 => 13
    case 122231 => 14
    case 113222 => 15
    case 123122 => 16
    case 123221 => 17
    case 223211 => 18
    case 221132 => 19
    case 221231 => 20
    case 213212 => 21
    case 223112 => 22
    case 312131 => 23
    case 311222 => 24
    case 321122 => 25
    case 321221 => 26
    case 312212 => 27
    case 322112 => 28
    case 322211 => 29
    case 212123 => 30
    case 212321 => 31
    case 232121 => 32
    case 111323 => 33
    case 131123 => 34
    case 131321 => 35
    case 112313 => 36
    case 132113 => 37
    case 132311 => 38
    case 211313 => 39
    case 231113 => 40
    case 231311 => 41
    case 112133 => 42
    case 112331 => 43
    case 132131 => 44
    case 113123 => 45
    case 113321 => 46
    case 133121 => 47
    case 313121 => 48
    case 211331 => 49
    case 231131 => 50
    case 213113 => 51
    case 213311 => 52
    case 213131 => 53
    case 311123 => 54
    case 311321 => 55
    case 331121 => 56
    case 312113 => 57
    case 312311 => 58
    case 332111 => 59
    case 314111 => 60
    case 221411 => 61
    case 431111 => 62
    case 111224 => 63
    case 111422 => 64
    case 121124 => 65
    case 121421 => 66
    case 141122 => 67
    case 141221 => 68
    case 112214 => 69
    case 112412 => 70
    case 122114 => 71
    case 122411 => 72
    case 142112 => 73
    case 142211 => 74
    case 241211 => 75
    case 221114 => 76
    case 413111 => 77
    case 241112 => 78
    case 134111 => 79
    case 111242 => 80
    case 121142 => 81
    case 121241 => 82
    case 114212 => 83
    case 124112 => 84
    case 124211 => 85
    case 411212 => 86
    case 421112 => 87
    case 421211 => 88
    case 212141 => 89
    case 214121 => 90
    case 412121 => 91
    case 111143 => 92
    case 111341 => 93
    case 131141 => 94
    case 114113 => 95
    case 114311 => 96
    case 411113 => 97
    case 411311 => 98
    case 113141 => 99
    case 114131 => 100
    case 311141 => 101
    case 411131 => 102
    case 211412 => 103
    case 211214 => 104
    case 211232 => 105
    case _ => -1
  }

  /** `CODE_TO_VALUE[c]`: the symbol whose table entry is `c`, if any. */
  function CodeToValue(c: int): Option<nat>
  {
    if CodeIndex(c) >= 0 then Some(CodeIndex(c)) else None
  }

  // ---------------------------------------------------------------------
  // Facts about the table, checked row by row
  // ---------------------------------------------------------------------

  /** A table entry: six decimal digits, each in 1..4, summing to 11 (widths of three bars and three spaces over 11 modules). */
  predicate WellFormedEntry(e: int)
  {
    100000 <= e < 1000000 &&
    1 <= e / 100000 <= 4 && 1 <= (e / 10000) % 10 <= 4 && 1 <= (e / 1000) % 10 <= 4 &&
    1 <= (e / 100) % 10 <= 4 && 1 <= (e / 10) % 10 <= 4 && 1 <= e % 10 <= 4 &&
    e / 100000 + (e / 10000) % 10 + (e / 1000) % 10 + (e / 100) % 10 + (e / 10) % 10 + e % 10 == 11
  }

  /** `WellFormedEntry` for rows `lo..hi-1`, as a recursion the verifier evaluates on literals. */
  predicate EntriesOk(lo: nat, hi: nat)
    requires hi <= SYMBOL_COUNT
    decreases hi - lo
  {
    lo >= hi || (WellFormedEntry(LegalCode(lo)) && EntriesOk(lo + 1, hi))
  }

  /** `CodeIndex` inverts `LegalCode` on rows `lo..hi-1`. */
  predicate InverseOk(lo: nat, hi: nat)
    requires hi <= SYMBOL_COUNT
    decreases hi - lo
  {
    lo >= hi || (CodeIndex(LegalCode(lo)) == lo && InverseOk(lo + 1, hi))
  }

  lemma {:induction false} EntriesOkSpan(lo: nat, hi: nat, v: int)
    requires hi <= SYMBOL_COUNT && EntriesOk(lo, hi) && lo <= v < hi
    ensures WellFormedEntry(LegalCode(v))
    decreases hi - lo
  {
    if lo < v {
      EntriesOkSpan(lo + 1, hi, v);
    }
  }

  lemma {:induction false} InverseOkSpan(lo: nat, hi: nat, v: int)
    requires hi <= SYMBOL_COUNT && InverseOk(lo, hi) && lo <= v < hi
    ensures CodeIndex(LegalCode(v)) == v
    decreases hi - lo
  {
    if lo < v {
      InverseOkSpan(lo + 1, hi, v);
    }
  }

  lemma EntriesOk0To0()
    ensures EntriesOk(0, 1)
  {
  }

  lemma EntriesOk1To1()
    ensures EntriesOk(1, 2)
  {
  }

  lemma EntriesOk2To2()
    ensures EntriesOk(2, 3)
  {
  }

  lemma EntriesOk3To3()
    ensures EntriesOk(3, 4)
  {
  }

  lemma EntriesOk4To4()
    ensures EntriesOk(4, 5)
  {
  }

  lemma EntriesOk5To5()
    ensures EntriesOk(5, 6)
  {
  }

  lemma EntriesOk6To6()
    ensures EntriesOk(6, 7)
  {
  }

  lemma EntriesOk7To7()
    ensures EntriesOk(7, 8)
  {
  }

  lemma EntriesOk8To8()
    ensures EntriesOk(8, 9)
  {
  }

  lemma EntriesOk9To9()
    ensures EntriesOk(9, 10)
  {
  }

  lemma EntriesOk10To11()
    ensures EntriesOk(10, 12)
  {
  }

  lemma EntriesOk12To13()
    ensures EntriesOk(12, 14)
  {
  }

  lemma EntriesOk14To15()
    ensures EntriesOk(14, 16)
  {
  }

  lemma EntriesOk16To17()
    ensures EntriesOk(16, 18)
  {
  }

  lemma EntriesOk18To18()
    ensures EntriesOk(18, 19)
  {
  }

  lemma EntriesOk19To19()
    ensures EntriesOk(19, 20)
  {
  }

  lemma EntriesOk20To20()
    ensures EntriesOk(20, 21)
  {
  }

  lemma EntriesOk21To21()
    ensures EntriesOk(21, 22)
  {
  }

  lemma EntriesOk22To22()
    ensures EntriesOk(22, 23)
  {
  }

  lemma EntriesOk23To23()
    ensures EntriesOk(23, 24)
  {
  }

  lemma EntriesOk24To25()
    ensures EntriesOk(24, 26)
  {
  }

  lemma EntriesOk26To26()
    ensures EntriesOk(26, 27)
  {
  }

  lemma EntriesOk27To27()
    ensures EntriesOk(27, 28)
  {
  }

  lemma EntriesOk28To28()
    ensures EntriesOk(28, 29)
  {
  }

  lemma EntriesOk29To29()
    ensures EntriesOk(29, 30)
  {
  }

  lemma EntriesOk30To30()
    ensures EntriesOk(30, 31)
  {
  }

  lemma EntriesOk31To31()
    ensures EntriesOk(31, 32)
  {
  }

  lemma EntriesOk32To32()
    ensures EntriesOk(32, 33)
  {
  }

  lemma EntriesOk33To34()
    ensures EntriesOk(33, 35)
  {
  }

  lemma EntriesOk35To36()
    ensures EntriesOk(35, 37)
  {
  }

  lemma EntriesOk37To38()
    ensures EntriesOk(37, 39)
  {
  }

  lemma EntriesOk39To39()
    ensures EntriesOk(39, 40)
  {
  }

  lemma EntriesOk40To41()
    ensures EntriesOk(40, 42)
  {
  }

  lemma EntriesOk42To42()
    ensures EntriesOk(42, 43)
  {
  }

  lemma EntriesOk43To43()
    ensures EntriesOk(43, 44)
  {
  }

  lemma EntriesOk44To44()
    ensures EntriesOk(44, 45)
  {
  }

  lemma EntriesOk45To45()
    ensures EntriesOk(45, 46)
  {
  }

  lemma EntriesOk46To46()
    ensures EntriesOk(46, 47)
  {
  }

  lemma EntriesOk47To47()
    ensures EntriesOk(47, 48)
  {
  }

  lemma EntriesOk48To48()
    ensures EntriesOk(48, 49)
  {
  }

  lemma EntriesOk49To49()
    ensures EntriesOk(49, 50)
  {
  }

  lemma EntriesOk50To50()
    ensures EntriesOk(50, 51)
  {
  }

  lemma EntriesOk51To51()
    ensures EntriesOk(51, 52)
  {
  }

  lemma EntriesOk52To52()
    ensures EntriesOk(52, 53)
  {
  }

  lemma EntriesOk53To53()
    ensures EntriesOk(53, 54)
  {
  }

  lemma EntriesOk54To54()
    ensures EntriesOk(54, 55)
  {
  }

  lemma EntriesOk55To55()
    ensures EntriesOk(55, 56)
  {
  }

  lemma EntriesOk56To56()
    ensures EntriesOk(56, 57)
  {
  }

  lemma EntriesOk57To57()
    ensures EntriesOk(57, 58)
  {
  }

  lemma EntriesOk58To58()
    ensures EntriesOk(58, 59)
  {
  }

  lemma EntriesOk59To59()
    ensures EntriesOk(59, 60)
  {
  }

  lemma EntriesOk60To60()
    ensures EntriesOk(60, 61)
  {
  }

  lemma EntriesOk61To61()
    ensures EntriesOk(61, 62)
  {
  }

  lemma EntriesOk62To62()
    ensures EntriesOk(62, 63)
  {
  }

  lemma EntriesOk63To63()
    ensures EntriesOk(63, 64)
  {
  }

  lemma EntriesOk64To64()
    ensures EntriesOk(64, 65)
  {
  }

  lemma EntriesOk65To65()
    ensures EntriesOk(65, 66)
  {
  }

  lemma EntriesOk66To66()
    ensures EntriesOk(66, 67)
  {
  }

  lemma EntriesOk67To67()
    ensures EntriesOk(67, 68)
  {
  }

  lemma EntriesOk68To68()
    ensures EntriesOk(68, 69)
  {
  }

  lemma EntriesOk69To69()
    ensures EntriesOk(69, 70)
  {
  }

  lemma EntriesOk70To70()
    ensures EntriesOk(70, 71)
  {
  }

  lemma EntriesOk71To71()
    ensures EntriesOk(71, 72)
  {
  }

  lemma EntriesOk72To72()
    ensures EntriesOk(72, 73)
  {
  }

  lemma EntriesOk73To73()
    ensures EntriesOk(73, 74)
  {
  }

  lemma EntriesOk74To74()
    ensures EntriesOk(74, 75)
  {
  }

  lemma EntriesOk75To75()
    ensures EntriesOk(75, 76)
  {
  }

  lemma EntriesOk76To76()
    ensures EntriesOk(76, 77)
  {
  }

  lemma EntriesOk77To77()
    ensures EntriesOk(77, 78)
  {
  }

  lemma EntriesOk78To78()
    ensures EntriesOk(78, 79)
  {
  }

  lemma EntriesOk79To79()
    ensures EntriesOk(79, 80)
  {
  }

  lemma EntriesOk80To80()
    ensures EntriesOk(80, 81)
  {
  }

  lemma EntriesOk81To81()
    ensures EntriesOk(81, 82)
  {
  }

  lemma EntriesOk82To82()
    ensures EntriesOk(82, 83)
  {
  }

  lemma EntriesOk83To83()
    ensures EntriesOk(83, 84)
  {
  }

  lemma EntriesOk84To84()
    ensures EntriesOk(84, 85)
  {
  }

  lemma EntriesOk85To85()
    ensures EntriesOk(85, 86)
  {
  }

  lemma EntriesOk86To86()
    ensures EntriesOk(86, 87)
  {
  }

  lemma EntriesOk87To87()
    ensures EntriesOk(87, 88)
  {
  }

  lemma EntriesOk88To88()
    ensures EntriesOk(88, 89)
  {
  }

  lemma EntriesOk89To89()
    ensures EntriesOk(89, 90)
  {
  }

  lemma EntriesOk90To90()
    ensures EntriesOk(90, 91)
  {
  }

  lemma EntriesOk91To91()
    ensures EntriesOk(91, 92)
  {
  }

  lemma EntriesOk92To92()
    ensures EntriesOk(92, 93)
  {
  }

  lemma EntriesOk93To93()
    ensures EntriesOk(93, 94)
  {
  }

  lemma EntriesOk94To94()
    ensures EntriesOk(94, 95)
  {
  }

  lemma EntriesOk95To95()
    ensures EntriesOk(95, 96)
  {
  }

  lemma EntriesOk96To96()
    ensures EntriesOk(96, 97)
  {
  }

  lemma EntriesOk97To97()
    ensures EntriesOk(97, 98)
  {
  }

  lemma EntriesOk98To98()
    ensures EntriesOk(98, 99)
  {
  }

  lemma EntriesOk99To99()
    ensures EntriesOk(99, 100)
  {
  }

  lemma EntriesOk100To100()
    ensures EntriesOk(100, 101)
  {
  }

  lemma EntriesOk101To101()
    ensures EntriesOk(101, 102)
  {
  }

  lemma EntriesOk102To102()
    ensures EntriesOk(102, 103)
  {
  }

  lemma EntriesOk103To103()
    ensures EntriesOk(103, 104)
  {
  }

  lemma EntriesOk104To104()
    ensures EntriesOk(104, 105)
  {
  }

  lemma EntriesOk105To105()
    ensures EntriesOk(105, 106)
  {
  }

  lemma InverseOk0To7()
    ensures InverseOk(0, 8)
  {
  }

  lemma InverseOk8To15()
    ensures InverseOk(8, 16)
  {
  }

  lemma InverseOk16To22()
    ensures InverseOk(16, 23)
  {
  }

  lemma InverseOk23To29()
    ensures InverseOk(23, 30)
  {
  }

  lemma InverseOk30To35()
    ensures InverseOk(30, 36)
  {
  }

  lemma InverseOk36To41()
    ensures InverseOk(36, 42)
  {
  }

  lemma InverseOk42To46()
    ensures InverseOk(42, 47)
  {
  }

  lemma InverseOk47To50()
    ensures InverseOk(47, 51)
  {
  }

  lemma InverseOk51To54()
    ensures InverseOk(51, 55)
  {
  }

  lemma InverseOk55To57()
    ensures InverseOk(55, 58)
  {
  }

  lemma InverseOk58To60()
    ensures InverseOk(58, 61)
  {
  }

  lemma InverseOk61To63()
    ensures InverseOk(61, 64)
  {
  }

  lemma InverseOk64To65()
    ensures InverseOk(64, 66)
  {
  }

  lemma InverseOk66To67()
    ensures InverseOk(66, 68)
  {
  }

  lemma InverseOk68To69()
    ensures InverseOk(68, 70)
  {
  }

  lemma InverseOk70To71()
    ensures InverseOk(70, 72)
  {
  }

  lemma InverseOk72To73()
    ensures InverseOk(72, 74)
  {
  }

  lemma InverseOk74To75()
    ensures InverseOk(74, 76)
  {
  }

  lemma InverseOk76To77()
    ensures InverseOk(76, 78)
  {
  }

  lemma InverseOk78To79()
    ensures InverseOk(78, 80)
  {
  }

  lemma InverseOk80To80()
    ensures InverseOk(80, 81)
  {
  }

  lemma InverseOk81To81()
    ensures InverseOk(81, 82)
  {
  }

  lemma InverseOk82To82()
    ensures InverseOk(82, 83)
  {
  }

  lemma InverseOk83To83()
    ensures InverseOk(83, 84)
  {
  }

  lemma InverseOk84To84()
    ensures InverseOk(84, 85)
  {
  }

  lemma InverseOk85To85()
    ensures InverseOk(85, 86)
  {
  }

  lemma InverseOk86To86()
    ensures InverseOk(86, 87)
  {
  }

  lemma InverseOk87To87()
    ensures InverseOk(87, 88)
  {
  }

  lemma InverseOk88To88()
    ensures InverseOk(88, 89)
  {
  }

  lemma InverseOk89To89()
    ensures InverseOk(89, 90)
  {
  }

  lemma InverseOk90To90()
    ensures InverseOk(90, 91)
  {
  }

  lemma InverseOk91To91()
    ensures InverseOk(91, 92)
  {
  }

  lemma InverseOk92To92()
    ensures InverseOk(92, 93)
  {
  }

  lemma InverseOk93To93()
    ensures InverseOk(93, 94)
  {
  }

  lemma InverseOk94To94()
    ensures InverseOk(94, 95)
  {
  }

  lemma InverseOk95To95()
    ensures InverseOk(95, 96)
  {
  }

  lemma InverseOk96To96()
    ensures InverseOk(96, 97)
  {
  }

  lemma InverseOk97To97()
    ensures InverseOk(97, 98)
  {
  }

  lemma InverseOk98To98()
    ensures InverseOk(98, 99)
  {
  }

  lemma InverseOk99To99()
    ensures InverseOk(99, 100)
  {
  }

  lemma InverseOk100To100()
    ensures InverseOk(100, 101)
  {
  }

  lemma InverseOk101To101()
    ensures InverseOk(101, 102)
  {
  }

  lemma InverseOk102To102()
    ensures InverseOk(102, 103)
  {
  }

  lemma InverseOk103To103()
    ensures InverseOk(103, 104)
  {
  }

  lemma InverseOk104To104()
    ensures InverseOk(104, 105)
  {
  }

  lemma InverseOk105To105()
    ensures InverseOk(105, 106)
  {
  }

  lemma EntryWellFormed0To0(v: int)
    requires 0 <= v < 1
    ensures WellFormedEntry(LegalCode(v))
  {
    EntriesOk0To0();
    EntriesOkSpan(0, 1, v);
  }

  lemma EntryWellFormed1To1(v: int)
    requires 1 <= v < 2
    ensures WellFormedEntry(LegalCode(v))
  {
    EntriesOk1To1();
    EntriesOkSpan(1, 2, v);
  }

  lemma EntryWellFormed2To2(v: int)
    requires 2 <= v < 3
    ensures WellFormedEntry(LegalCode(v))
  {
    EntriesOk2To2();
    EntriesOkSpan(2, 3, v);
  }

  lemma EntryWellFormed3To3(v: int)
    requires 3 <= v < 4
    ensures WellFormedEntry(LegalCode(v))
  {
    EntriesOk3To3();
    EntriesOkSpan(3, 4, v);
  }

  lemma EntryWellFormed4To4(v: int)
    requires 4 <= v < 5
    ensures WellFormedEntry(LegalCode(v))
  {
    EntriesOk4To4();
    EntriesOkSpan(4, 5, v);
  }

  lemma EntryWellFormed5To5(v: int)
    requires 5 <= v < 6
    ensures WellFormedEntry(LegalCode(v))
  {
    EntriesOk5To5();
    EntriesOkSpan(5, 6, v);
  }

  lemma EntryWellFormed6To6(v: int)
    requires 6 <= v < 7
    ensures WellFormedEntry(LegalCode(v))
  {
    EntriesOk6To6();
    EntriesOkSpan(6, 7, v);
  }

  lemma EntryWellFormed7To7(v: int)
    requires 7 <= v < 8
    ensures WellFormedEntry(LegalCode(v))
  {
    EntriesOk7To7();
    EntriesOkSpan(7, 8, v);
  }

  lemma EntryWellFormed8To8(v: int)
    requires 8 <= v < 9
    ensures WellFormedEntry(LegalCode(v))
  {
    EntriesOk8To8();
    EntriesOkSpan(8, 9, v);
  }

  lemma EntryWellFormed9To9(v: int)
    requires 9 <= v < 10
    ensures WellFormedEntry(LegalCode(v))
  {
    EntriesOk9To9();
    EntriesOkSpan(9, 10, v);
  }

  lemma EntryWellFormed10To11(v: int)
    requires 10 <= v < 12
    ensures WellFormedEntry(LegalCode(v))
  {
    EntriesOk10To11();
    EntriesOkSpan(10, 12, v);
  }

  lemma EntryWellFormed12To13(v: int)
    requires 12 <= v < 14
    ensures WellFormedEntry(LegalCode(v))
  {
    EntriesOk12To13();
    EntriesOkSpan(12, 14, v);
  }

  lemma EntryWellFormed14To15(v: int)
    requires 14 <= v < 16
    ensures WellFormedEntry(LegalCode(v))
  {
    EntriesOk14To15();
    EntriesOkSpan(14, 16, v);
  }

  lemma EntryWellFormed16To17(v: int)
    requires 16 <= v < 18
    ensures WellFormedEntry(LegalCode(v))
  {
    EntriesOk16To17();
    EntriesOkSpan(16, 18, v);
  }

  lemma EntryWellFormed18To18(v: int)
    requires 18 <= v < 19
    ensures WellFormedEntry(LegalCode(v))
  {
    EntriesOk18To18();
    EntriesOkSpan(18, 19, v);
  }

  lemma EntryWellFormed19To19(v: int)
    requires 19 <= v < 20
    ensures WellFormedEntry(LegalCode(v))
  {
    EntriesOk19To19();
    EntriesOkSpan(19, 20, v);
  }

  lemma EntryWellFormed20To20(v: int)
    requires 20 <= v < 21
    ensures WellFormedEntry(LegalCode(v))
  {
    EntriesOk20To20();
    EntriesOkSpan(20, 21, v);
  }

  lemma EntryWellFormed21To21(v: int)
    requires 21 <= v < 22
    ensures WellFormedEntry(LegalCode(v))
  {
    EntriesOk21To21();
    EntriesOkSpan(21, 22, v);
  }

  lemma EntryWellFormed22To22(v: int)
    requires 22 <= v < 23
    ensures WellFormedEntry(LegalCode(v))
  {
    EntriesOk22To22();
    EntriesOkSpan(22, 23, v);
  }

  lemma EntryWellFormed23To23(v: int)
    requires 23 <= v < 24
    ensures WellFormedEntry(LegalCode(v))
  {
    EntriesOk23To23();
    EntriesOkSpan(23, 24, v);
  }

  lemma EntryWellFormed24To25(v: int)
    requires 24 <= v < 26
    ensures WellFormedEntry(LegalCode(v))
  {
    EntriesOk24To25();
    EntriesOkSpan(24, 26, v);
  }

  lemma EntryWellFormed26To26(v: int)
    requires 26 <= v < 27
    ensures WellFormedEntry(LegalCode(v))
  {
    EntriesOk26To26();
    EntriesOkSpan(26, 27, v);
  }

  lemma EntryWellFormed27To27(v: int)
    requires 27 <= v < 28
    ensures WellFormedEntry(LegalCode(v))
  {
    EntriesOk27To27();
    EntriesOkSpan(27, 28, v);
  }

  lemma EntryWellFormed28To28(v: int)
    requires 28 <= v < 29
    ensures WellFormedEntry(LegalCode(v))
  {
    EntriesOk28To28();
    EntriesOkSpan(28, 29, v);
  }

  lemma EntryWellFormed29To29(v: int)
    requires 29 <= v < 30
    ensures WellFormedEntry(LegalCode(v))
  {
    EntriesOk29To29();
    EntriesOkSpan(29, 30, v);
  }

  lemma EntryWellFormed30To30(v: int)
    requires 30 <= v < 31
    ensures WellFormedEntry(LegalCode(v))
  {
    EntriesOk30To30();
    EntriesOkSpan(30, 31, v);
  }

  lemma EntryWellFormed31To31(v: int)
    requires 31 <= v < 32
    ensures WellFormedEntry(LegalCode(v))
  {
    EntriesOk31To31();
    EntriesOkSpan(31, 32, v);
  }

  lemma EntryWellFormed32To32(v: int)
    requires 32 <= v < 33
    ensures WellFormedEntry(LegalCode(v))
  {
    EntriesOk32To32();
    EntriesOkSpan(32, 33, v);
  }

  lemma EntryWellFormed33To34(v: int)
    requires 33 <= v < 35
    ensures WellFormedEntry(LegalCode(v))
  {
    EntriesOk33To34();
    EntriesOkSpan(33, 35, v);
  }

  lemma EntryWellFormed35To36(v: int)
    requires 35 <= v < 37
    ensures WellFormedEntry(LegalCode(v))
  {
    EntriesOk35To36();
    EntriesOkSpan(35, 37, v);
  }

  lemma EntryWellFormed37To38(v: int)
    requires 37 <= v < 39
    ensures WellFormedEntry(LegalCode(v))
  {
    EntriesOk37To38();
    EntriesOkSpan(37, 39, v);
  }

  lemma EntryWellFormed39To39(v: int)
    requires 39 <= v < 40
    ensures WellFormedEntry(LegalCode(v))
  {
    EntriesOk39To39();
    EntriesOkSpan(39, 40, v);
  }

  lemma EntryWellFormed40To41(v: int)
    requires 40 <= v < 42
    ensures WellFormedEntry(LegalCode(v))
  {
    EntriesOk40To41();
    EntriesOkSpan(40, 42, v);
  }

  lemma EntryWellFormed42To42(v: int)
    requires 42 <= v < 43
    ensures WellFormedEntry(LegalCode(v))
  {
    EntriesOk42To42();
    EntriesOkSpan(42, 43, v);
  }

  lemma EntryWellFormed43To43(v: int)
    requires 43 <= v < 44
    ensures WellFormedEntry(LegalCode(v))
  {
    EntriesOk43To43();
    EntriesOkSpan(43, 44, v);
  }

  lemma EntryWellFormed44To44(v: int)
    requires 44 <= v < 45
    ensures WellFormedEntry(LegalCode(v))
  {
    EntriesOk44To44();
    EntriesOkSpan(44, 45, v);
  }

  lemma EntryWellFormed45To45(v: int)
    requires 45 <= v < 46
    ensures WellFormedEntry(LegalCode(v))
  {
    EntriesOk45To45();
    EntriesOkSpan(45, 46, v);
  }

  lemma EntryWellFormed46To46(v: int)
    requires 46 <= v < 47
    ensures WellFormedEntry(LegalCode(v))
  {
    EntriesOk46To46();
    EntriesOkSpan(46, 47, v);
  }

  lemma EntryWellFormed47To47(v: int)
    requires 47 <= v < 48
    ensures WellFormedEntry(LegalCode(v))
  {
    EntriesOk47To47();
    EntriesOkSpan(47, 48, v);
  }

  lemma EntryWellFormed48To48(v: int)
    requires 48 <= v < 49
    ensures WellFormedEntry(LegalCode(v))
  {
    EntriesOk48To48();
    EntriesOkSpan(48, 49, v);
  }

  lemma EntryWellFormed49To49(v: int)
    requires 49 <= v < 50
    ensures WellFormedEntry(LegalCode(v))
  {
    EntriesOk49To49();
    EntriesOkSpan(49, 50, v);
  }

  lemma EntryWellFormed50To50(v: int)
    requires 50 <= v < 51
    ensures WellFormedEntry(LegalCode(v))
  {
    EntriesOk50To50();
    EntriesOkSpan(50, 51, v);
  }

  lemma EntryWellFormed51To51(v: int)
    requires 51 <= v < 52
    ensures WellFormedEntry(LegalCode(v))
  {
    EntriesOk51To51();
    EntriesOkSpan(51, 52, v);
  }

  lemma EntryWellFormed52To52(v: int)
    requires 52 <= v < 53
    ensures WellFormedEntry(LegalCode(v))
  {
    EntriesOk52To52();
    EntriesOkSpan(52, 53, v);
  }

  lemma EntryWellFormed53To53(v: int)
    requires 53 <= v < 54
    ensures WellFormedEntry(LegalCode(v))
  {
    EntriesOk53To53();
    EntriesOkSpan(53, 54, v);
  }

  lemma EntryWellFormed54To54(v: int)
    requires 54 <= v < 55
    ensures WellFormedEntry(LegalCode(v))
  {
    EntriesOk54To54();
    EntriesOkSpan(54, 55, v);
  }

  lemma EntryWellFormed55To55(v: int)
    requires 55 <= v < 56
    ensures WellFormedEntry(LegalCode(v))
  {
    EntriesOk55To55();
    EntriesOkSpan(55, 56, v);
  }

  lemma EntryWellFormed56To56(v: int)
    requires 56 <= v < 57
    ensures WellFormedEntry(LegalCode(v))
  {
    EntriesOk56To56();
    EntriesOkSpan(56, 57, v);
  }

  lemma EntryWellFormed57To57(v: int)
    requires 57 <= v < 58
    ensures WellFormedEntry(LegalCode(v))
  {
    EntriesOk57To57();
    EntriesOkSpan(57, 58, v);
  }

  lemma EntryWellFormed58To58(v: int)
    requires 58 <= v < 59
    ensures WellFormedEntry(LegalCode(v))
  {
    EntriesOk58To58();
    EntriesOkSpan(58, 59, v);
  }

  lemma EntryWellFormed59To59(v: int)
    requires 59 <= v < 60
    ensures WellFormedEntry(LegalCode(v))
  {
    EntriesOk59To59();
    EntriesOkSpan(59, 60, v);
  }

  lemma EntryWellFormed60To60(v: int)
    requires 60 <= v < 61
    ensures WellFormedEntry(LegalCode(v))
  {
    EntriesOk60To60();
    EntriesOkSpan(60, 61, v);
  }

  lemma EntryWellFormed61To61(v: int)
    requires 61 <= v < 62
    ensures WellFormedEntry(LegalCode(v))
  {
    EntriesOk61To61();
    EntriesOkSpan(61, 62, v);
  }

  lemma EntryWellFormed62To62(v: int)
    requires 62 <= v < 63
    ensures WellFormedEntry(LegalCode(v))
  {
    EntriesOk62To62();
    EntriesOkSpan(62, 63, v);
  }

  lemma EntryWellFormed63To63(v: int)
    requires 63 <= v < 64
    ensures WellFormedEntry(LegalCode(v))
  {
    EntriesOk63To63();
    EntriesOkSpan(63, 64, v);
  }

  lemma EntryWellFormed64To64(v: int)
    requires 64 <= v < 65
    ensures WellFormedEntry(LegalCode(v))
  {
    EntriesOk64To64();
    EntriesOkSpan(64, 65, v);
  }

  lemma EntryWellFormed65To65(v: int)
    requires 65 <= v < 66
    ensures WellFormedEntry(LegalCode(v))
  {
    EntriesOk65To65();
    EntriesOkSpan(65, 66, v);
  }

  lemma EntryWellFormed66To66(v: int)
    requires 66 <= v < 67
    ensures WellFormedEntry(LegalCode(v))
  {
    EntriesOk66To66();
    EntriesOkSpan(66, 67, v);
  }

  lemma EntryWellFormed67To67(v: int)
    requires 67 <= v < 68
    ensures WellFormedEntry(LegalCode(v))
  {
    EntriesOk67To67();
    EntriesOkSpan(67, 68, v);
  }

  lemma EntryWellFormed68To68(v: int)
    requires 68 <= v < 69
    ensures WellFormedEntry(LegalCode(v))
  {
    EntriesOk68To68();
    EntriesOkSpan(68, 69, v);
  }

  lemma EntryWellFormed69To69(v: int)
    requires 69 <= v < 70
    ensures WellFormedEntry(LegalCode(v))
  {
    EntriesOk69To69();
    EntriesOkSpan(69, 70, v);
  }

  lemma EntryWellFormed70To70(v: int)
    requires 70 <= v < 71
    ensures WellFormedEntry(LegalCode(v))
  {
    EntriesOk70To70();
    EntriesOkSpan(70, 71, v);
  }

  lemma EntryWellFormed71To71(v: int)
    requires 71 <= v < 72
    ensures WellFormedEntry(LegalCode(v))
  {
    EntriesOk71To71();
    EntriesOkSpan(71, 72, v);
  }

  lemma EntryWellFormed72To72(v: int)
    requires 72 <= v < 73
    ensures WellFormedEntry(LegalCode(v))
  {
    EntriesOk72To72();
    EntriesOkSpan(72, 73, v);
  }

  lemma EntryWellFormed73To73(v: int)
    requires 73 <= v < 74
    ensures WellFormedEntry(LegalCode(v))
  {
    EntriesOk73To73();
    EntriesOkSpan(73, 74, v);
  }

  lemma EntryWellFormed74To74(v: int)
    requires 74 <= v < 75
    ensures WellFormedEntry(LegalCode(v))
  {
    EntriesOk74To74();
    EntriesOkSpan(74, 75, v);
  }

  lemma EntryWellFormed75To75(v: int)
    requires 75 <= v < 76
    ensures WellFormedEntry(LegalCode(v))
  {
    EntriesOk75To75();
    EntriesOkSpan(75, 76, v);
  }

  lemma EntryWellFormed76To76(v: int)
    requires 76 <= v < 77
    ensures WellFormedEntry(LegalCode(v))
  {
    EntriesOk76To76();
    EntriesOkSpan(76, 77, v);
  }

  lemma EntryWellFormed77To77(v: int)
    requires 77 <= v < 78
    ensures WellFormedEntry(LegalCode(v))
  {
    EntriesOk77To77();
    EntriesOkSpan(77, 78, v);
  }

  lemma EntryWellFormed78To78(v: int)
    requires 78 <= v < 79
    ensures WellFormedEntry(LegalCode(v))
  {
    EntriesOk78To78();
    EntriesOkSpan(78, 79, v);
  }

  lemma EntryWellFormed79To79(v: int)
    requires 79 <= v < 80
    ensures WellFormedEntry(LegalCode(v))
  {
    EntriesOk79To79();
    EntriesOkSpan(79, 80, v);
  }

  lemma EntryWellFormed80To80(v: int)
    requires 80 <= v < 81
    ensures WellFormedEntry(LegalCode(v))
  {
    EntriesOk80To80();
    EntriesOkSpan(80, 81, v);
  }

  lemma EntryWellFormed81To81(v: int)
    requires 81 <= v < 82
    ensures WellFormedEntry(LegalCode(v))
  {
    EntriesOk81To81();
    EntriesOkSpan(81, 82, v);
  }

  lemma EntryWellFormed82To82(v: int)
    requires 82 <= v < 83
    ensures WellFormedEntry(LegalCode(v))
  {
    EntriesOk82To82();
    EntriesOkSpan(82, 83, v);
  }

  lemma EntryWellFormed83To83(v: int)
    requires 83 <= v < 84
    ensures WellFormedEntry(LegalCode(v))
  {
    EntriesOk83To83();
    EntriesOkSpan(83, 84, v);
  }

  lemma EntryWellFormed84To84(v: int)
    requires 84 <= v < 85
    ensures WellFormedEntry(LegalCode(v))
  {
    EntriesOk84To84();
    EntriesOkSpan(84, 85, v);
  }

  lemma EntryWellFormed85To85(v: int)
    requires 85 <= v < 86
    ensures WellFormedEntry(LegalCode(v))
  {
    EntriesOk85To85();
    EntriesOkSpan(85, 86, v);
  }

  lemma EntryWellFormed86To86(v: int)
    requires 86 <= v < 87
    ensures WellFormedEntry(LegalCode(v))
  {
    EntriesOk86To86();
    EntriesOkSpan(86, 87, v);
  }

  lemma EntryWellFormed87To87(v: int)
    requires 87 <= v < 88
    ensures WellFormedEntry(LegalCode(v))
  {
    EntriesOk87To87();
    EntriesOkSpan(87, 88, v);
  }

  lemma EntryWellFormed88To88(v: int)
    requires 88 <= v < 89
    ensures WellFormedEntry(LegalCode(v))
  {
    EntriesOk88To88();
    EntriesOkSpan(88, 89, v);
  }

  lemma EntryWellFormed89To89(v: int)
    requires 89 <= v < 90
    ensures WellFormedEntry(LegalCode(v))
  {
    EntriesOk89To89();
    EntriesOkSpan(89, 90, v);
  }

  lemma EntryWellFormed90To90(v: int)
    requires 90 <= v < 91
    ensures WellFormedEntry(LegalCode(v))
  {
    EntriesOk90To90();
    EntriesOkSpan(90, 91, v);
  }

  lemma EntryWellFormed91To91(v: int)
    requires 91 <= v < 92
    ensures WellFormedEntry(LegalCode(v))
  {
    EntriesOk91To91();
    EntriesOkSpan(91, 92, v);
  }

  lemma EntryWellFormed92To92(v: int)
    requires 92 <= v < 93
    ensures WellFormedEntry(LegalCode(v))
  {
    EntriesOk92To92();
    EntriesOkSpan(92, 93, v);
  }

  lemma EntryWellFormed93To93(v: int)
    requires 93 <= v < 94
    ensures WellFormedEntry(LegalCode(v))
  {
    EntriesOk93To93();
    EntriesOkSpan(93, 94, v);
  }

  lemma EntryWellFormed94To94(v: int)
    requires 94 <= v < 95
    ensures WellFormedEntry(LegalCode(v))
  {
    EntriesOk94To94();
    EntriesOkSpan(94, 95, v);
  }

  lemma EntryWellFormed95To95(v: int)
    requires 95 <= v < 96
    ensures WellFormedEntry(LegalCode(v))
  {
    EntriesOk95To95();
    EntriesOkSpan(95, 96, v);
  }

  lemma EntryWellFormed96To96(v: int)
    requires 96 <= v < 97
    ensures WellFormedEntry(LegalCode(v))
  {
    EntriesOk96To96();
    EntriesOkSpan(96, 97, v);
  }

  lemma EntryWellFormed97To97(v: int)
    requires 97 <= v < 98
    ensures WellFormedEntry(LegalCode(v))
  {
    EntriesOk97To97();
    EntriesOkSpan(97, 98, v);
  }

  lemma EntryWellFormed98To98(v: int)
    requires 98 <= v < 99
    ensures WellFormedEntry(LegalCode(v))
  {
    EntriesOk98To98();
    EntriesOkSpan(98, 99, v);
  }

  lemma EntryWellFormed99To99(v: int)
    requires 99 <= v < 100
    ensures WellFormedEntry(LegalCode(v))
  {
    EntriesOk99To99();
    EntriesOkSpan(99, 100, v);
  }

  lemma EntryWellFormed100To100(v: int)
    requires 100 <= v < 101
    ensures WellFormedEntry(LegalCode(v))
  {
    EntriesOk100To100();
    EntriesOkSpan(100, 101, v);
  }

  lemma EntryWellFormed101To101(v: int)
    requires 101 <= v < 102
    ensures WellFormedEntry(LegalCode(v))
  {
    EntriesOk101To101();
    EntriesOkSpan(101, 102, v);
  }

  lemma EntryWellFormed102To102(v: int)
    requires 102 <= v < 103
    ensures WellFormedEntry(LegalCode(v))
  {
    EntriesOk102To102();
    EntriesOkSpan(102, 103, v);
  }

  lemma EntryWellFormed103To103(v: int)
    requires 103 <= v < 104
    ensures WellFormedEntry(LegalCode(v))
  {
    EntriesOk103To103();
    EntriesOkSpan(103, 104, v);
  }

  lemma EntryWellFormed104To104(v: int)
    requires 104 <= v < 105
    ensures WellFormedEntry(LegalCode(v))
  {
    EntriesOk104To104();
    EntriesOkSpan(104, 105, v);
  }

  lemma EntryWellFormed105To105(v: int)
    requires 105 <= v < 106
    ensures WellFormedEntry(LegalCode(v))
  {
    EntriesOk105To105();
    EntriesOkSpan(105, 106, v);
  }

  lemma EntryInverse0To7(v: int)
    requires 0 <= v < 8
    ensures CodeIndex(LegalCode(v)) == v
  {
    InverseOk0To7();
    InverseOkSpan(0, 8, v);
  }

  lemma EntryInverse8To15(v: int)
    requires 8 <= v < 16
    ensures CodeIndex(LegalCode(v)) == v
  {
    InverseOk8To15();
    InverseOkSpan(8, 16, v);
  }

  lemma EntryInverse16To22(v: int)
    requires 16 <= v < 23
    ensures CodeIndex(LegalCode(v)) == v
  {
    InverseOk16To22();
    InverseOkSpan(16, 23, v);
  }

  lemma EntryInverse23To29(v: int)
    requires 23 <= v < 30
    ensures CodeIndex(LegalCode(v)) == v
  {
    InverseOk23To29();
    InverseOkSpan(23, 30, v);
  }

  lemma EntryInverse30To35(v: int)
    requires 30 <= v < 36
    ensures CodeIndex(LegalCode(v)) == v
  {
    InverseOk30To35();
    InverseOkSpan(30, 36, v);
  }

  lemma EntryInverse36To41(v: int)
    requires 36 <= v < 42
    ensures CodeIndex(LegalCode(v)) == v
  {
    InverseOk36To41();
    InverseOkSpan(36, 42, v);
  }

  lemma EntryInverse42To46(v: int)
    requires 42 <= v < 47
    ensures CodeIndex(LegalCode(v)) == v
  {
    InverseOk42To46();
    InverseOkSpan(42, 47, v);
  }

  lemma EntryInverse47To50(v: int)
    requires 47 <= v < 51
    ensures CodeIndex(LegalCode(v)) == v
  {
    InverseOk47To50();
    InverseOkSpan(47, 51, v);
  }

  lemma EntryInverse51To54(v: int)
    requires 51 <= v < 55
    ensures CodeIndex(LegalCode(v)) == v
  {
    InverseOk51To54();
    InverseOkSpan(51, 55, v);
  }

  lemma EntryInverse55To57(v: int)
    requires 55 <= v < 58
    ensures CodeIndex(LegalCode(v)) == v
  {
    InverseOk55To57();
    InverseOkSpan(55, 58, v);
  }

  lemma EntryInverse58To60(v: int)
    requires 58 <= v < 61
    ensures CodeIndex(LegalCode(v)) == v
  {
    InverseOk58To60();
    InverseOkSpan(58, 61, v);
  }

  lemma EntryInverse61To63(v: int)
    requires 61 <= v < 64
    ensures CodeIndex(LegalCode(v)) == v
  {
    InverseOk61To63();
    InverseOkSpan(61, 64, v);
  }

  lemma EntryInverse64To65(v: int)
    requires 64 <= v < 66
    ensures CodeIndex(LegalCode(v)) == v
  {
    InverseOk64To65();
    InverseOkSpan(64, 66, v);
  }

  lemma EntryInverse66To67(v: int)
    requires 66 <= v < 68
    ensures CodeIndex(LegalCode(v)) == v
  {
    InverseOk66To67();
    InverseOkSpan(66, 68, v);
  }

  lemma EntryInverse68To69(v: int)
    requires 68 <= v < 70
    ensures CodeIndex(LegalCode(v)) == v
  {
    InverseOk68To69();
    InverseOkSpan(68, 70, v);
  }

  lemma EntryInverse70To71(v: int)
    requires 70 <= v < 72
    ensures CodeIndex(LegalCode(v)) == v
  {
    InverseOk70To71();
    InverseOkSpan(70, 72, v);
  }

  lemma EntryInverse72To73(v: int)
    requires 72 <= v < 74
    ensures CodeIndex(LegalCode(v)) == v
  {
    InverseOk72To73();
    InverseOkSpan(72, 74, v);
  }

  lemma EntryInverse74To75(v: int)
    requires 74 <= v < 76
    ensures CodeIndex(LegalCode(v)) == v
  {
    InverseOk74To75();
    InverseOkSpan(74, 76, v);
  }

  lemma EntryInverse76To77(v: int)
    requires 76 <= v < 78
    ensures CodeIndex(LegalCode(v)) == v
  {
    InverseOk76To77();
    InverseOkSpan(76, 78, v);
  }

  lemma EntryInverse78To79(v: int)
    requires 78 <= v < 80
    ensures CodeIndex(LegalCode(v)) == v
  {
    InverseOk78To79();
    InverseOkSpan(78, 80, v);
  }

  lemma EntryInverse80To80(v: int)
    requires 80 <= v < 81
    ensures CodeIndex(LegalCode(v)) == v
  {
    InverseOk80To80();
    InverseOkSpan(80, 81, v);
  }

  lemma EntryInverse81To81(v: int)
    requires 81 <= v < 82
    ensures CodeIndex(LegalCode(v)) == v
  {
    InverseOk81To81();
    InverseOkSpan(81, 82, v);
  }

  lemma EntryInverse82To82(v: int)
    requires 82 <= v < 83
    ensures CodeIndex(LegalCode(v)) == v
  {
    InverseOk82To82();
    InverseOkSpan(82, 83, v);
  }

  lemma EntryInverse83To83(v: int)
    requires 83 <= v < 84
    ensures CodeIndex(LegalCode(v)) == v
  {
    InverseOk83To83();
    InverseOkSpan(83, 84, v);
  }

  lemma EntryInverse84To84(v: int)
    requires 84 <= v < 85
    ensures CodeIndex(LegalCode(v)) == v
  {
    InverseOk84To84();
    InverseOkSpan(84, 85, v);
  }

  lemma EntryInverse85To85(v: int)
    requires 85 <= v < 86
    ensures CodeIndex(LegalCode(v)) == v
  {
    InverseOk85To85();
    InverseOkSpan(85, 86, v);
  }

  lemma EntryInverse86To86(v: int)
    requires 86 <= v < 87
    ensures CodeIndex(LegalCode(v)) == v
  {
    InverseOk86To86();
    InverseOkSpan(86, 87, v);
  }

  lemma EntryInverse87To87(v: int)
    requires 87 <= v < 88
    ensures CodeIndex(LegalCode(v)) == v
  {
    InverseOk87To87();
    InverseOkSpan(87, 88, v);
  }

  lemma EntryInverse88To88(v: int)
    requires 88 <= v < 89
    ensures CodeIndex(LegalCode(v)) == v
  {
    InverseOk88To88();
    InverseOkSpan(88, 89, v);
  }

  lemma EntryInverse89To89(v: int)
    requires 89 <= v < 90
    ensures CodeIndex(LegalCode(v)) == v
  {
    InverseOk89To89();
    InverseOkSpan(89, 90, v);
  }

  lemma EntryInverse90To90(v: int)
    requires 90 <= v < 91
    ensures CodeIndex(LegalCode(v)) == v
  {
    InverseOk90To90();
    InverseOkSpan(90, 91, v);
  }

  lemma EntryInverse91To91(v: int)
    requires 91 <= v < 92
    ensures CodeIndex(LegalCode(v)) == v
  {
    InverseOk91To91();
    InverseOkSpan(91, 92, v);
  }

  lemma EntryInverse92To92(v: int)
    requires 92 <= v < 93
    ensures CodeIndex(LegalCode(v)) == v
  {
    InverseOk92To92();
    InverseOkSpan(92, 93, v);
  }

  lemma EntryInverse93To93(v: int)
    requires 93 <= v < 94
    ensures CodeIndex(LegalCode(v)) == v
  {
    InverseOk93To93();
    InverseOkSpan(93, 94, v);
  }

  lemma EntryInverse94To94(v: int)
    requires 94 <= v < 95
    ensures CodeIndex(LegalCode(v)) == v
  {
    InverseOk94To94();
    InverseOkSpan(94, 95, v);
  }

  lemma EntryInverse95To95(v: int)
    requires 95 <= v < 96
    ensures CodeIndex(LegalCode(v)) == v
  {
    InverseOk95To95();
    InverseOkSpan(95, 96, v);
  }

  lemma EntryInverse96To96(v: int)
    requires 96 <= v < 97
    ensures CodeIndex(LegalCode(v)) == v
  {
    InverseOk96To96();
    InverseOkSpan(96, 97, v);
  }

  lemma EntryInverse97To97(v: int)
    requires 97 <= v < 98
    ensures CodeIndex(LegalCode(v)) == v
  {
    InverseOk97To97();
    InverseOkSpan(97, 98, v);
  }

  lemma EntryInverse98To98(v: int)
    requires 98 <= v < 99
    ensures CodeIndex(LegalCode(v)) == v
  {
    InverseOk98To98();
    InverseOkSpan(98, 99, v);
  }

  lemma EntryInverse99To99(v: int)
    requires 99 <= v < 100
    ensures CodeIndex(LegalCode(v)) == v
  {
    InverseOk99To99();
    InverseOkSpan(99, 100, v);
  }

  lemma EntryInverse100To100(v: int)
    requires 100 <= v < 101
    ensures CodeIndex(LegalCode(v)) == v
  {
    InverseOk100To100();
    InverseOkSpan(100, 101, v);
  }

  lemma EntryInverse101To101(v: int)
    requires 101 <= v < 102
    ensures CodeIndex(LegalCode(v)) == v
  {
    InverseOk101To101();
    InverseOkSpan(101, 102, v);
  }

  lemma EntryInverse102To102(v: int)
    requires 102 <= v < 103
    ensures CodeIndex(LegalCode(v)) == v
  {
    InverseOk102To102();
    InverseOkSpan(102, 103, v);
  }

  lemma EntryInverse103To103(v: int)
    requires 103 <= v < 104
    ensures CodeIndex(LegalCode(v)) == v
  {
    InverseOk103To103();
    InverseOkSpan(103, 104, v);
  }

  lemma EntryInverse104To104(v: int)
    requires 104 <= v < 105
    ensures CodeIndex(LegalCode(v)) == v
  {
    InverseOk104To104();
    InverseOkSpan(104, 105, v);
  }

  lemma EntryInverse105To105(v: int)
    requires 105 <= v < 106
    ensures CodeIndex(LegalCode(v)) == v
  {
    InverseOk105To105();
    InverseOkSpan(105, 106, v);
  }

  /** Every row of the table is well formed, and `CodeIndex` maps it back to its row. */
  lemma RowOk(v: int)
    requires 0 <= v < SYMBOL_COUNT
    ensures WellFormedEntry(LegalCode(v))
    ensures CodeIndex(LegalCode(v)) == v
  {

    if v < 1 {

      EntryWellFormed0To0(v);

    } else if v < 2 {

      EntryWellFormed1To1(v);

    } else if v < 3 {

      EntryWellFormed2To2(v);

    } else if v < 4 {

      EntryWellFormed3To3(v);

    } else if v < 5 {

      EntryWellFormed4To4(v);

    } else if v < 6 {

      EntryWellFormed5To5(v);

    } else if v < 7 {

      EntryWellFormed6To6(v);

    } else if v < 8 {

      EntryWellFormed7To7(v);

    } else if v < 9 {

      EntryWellFormed8To8(v);

    } else if v < 10 {

      EntryWellFormed9To9(v);

    } else if v < 12 {

      EntryWellFormed10To11(v);

    } else if v < 14 {

      EntryWellFormed12To13(v);

    } else if v < 16 {

      EntryWellFormed14To15(v);

    } else if v < 18 {

      EntryWellFormed16To17(v);

    } else if v < 19 {

      EntryWellFormed18To18(v);

    } else if v < 20 {

      EntryWellFormed19To19(v);

    } else if v < 21 {

      EntryWellFormed20To20(v);

    } else if v < 22 {

      EntryWellFormed21To21(v);

    } else if v < 23 {

      EntryWellFormed22To22(v);

    } else if v < 24 {

      EntryWellFormed23To23(v);

    } else if v < 26 {

      EntryWellFormed24To25(v);

    } else if v < 27 {

      EntryWellFormed26To26(v);

    } else if v < 28 {

      EntryWellFormed27To27(v);

    } else if v < 29 {

      EntryWellFormed28To28(v);

    } else if v < 30 {

      EntryWellFormed29To29(v);

    } else if v < 31 {

      EntryWellFormed30To30(v);

    } else if v < 32 {

      EntryWellFormed31To31(v);

    } else if v < 33 {

      EntryWellFormed32To32(v);

    } else if v < 35 {

      EntryWellFormed33To34(v);

    } else if v < 37 {

      EntryWellFormed35To36(v);

    } else if v < 39 {

      EntryWellFormed37To38(v);

    } else if v < 40 {

      EntryWellFormed39To39(v);

    } else if v < 42 {

      EntryWellFormed40To41(v);

    } else if v < 43 {

      EntryWellFormed42To42(v);

    } else if v < 44 {

      EntryWellFormed43To43(v);

    } else if v < 45 {

      EntryWellFormed44To44(v);

    } else if v < 46 {

      EntryWellFormed45To45(v);

    } else if v < 47 {

      EntryWellFormed46To46(v);

    } else if v < 48 {

      EntryWellFormed47To47(v);

    } else if v < 49 {

      EntryWellFormed48To48(v);

    } else if v < 50 {

      EntryWellFormed49To49(v);

    } else if v < 51 {

      EntryWellFormed50To50(v);

    } else if v < 52 {

      EntryWellFormed51To51(v);

    } else if v < 53 {

      EntryWellFormed52To52(v);

    } else if v < 54 {

      EntryWellFormed53To53(v);

    } else if v < 55 {

      EntryWellFormed54To54(v);

    } else if v < 56 {

      EntryWellFormed55To55(v);

    } else if v < 57 {

      EntryWellFormed56To56(v);

    } else if v < 58 {

      EntryWellFormed57To57(v);

    } else if v < 59 {

      EntryWellFormed58To58(v);

    } else if v < 60 {

      EntryWellFormed59To59(v);

    } else if v < 61 {

      EntryWellFormed60To60(v);

    } else if v < 62 {

      EntryWellFormed61To61(v);

    } else if v < 63 {

      EntryWellFormed62To62(v);

    } else if v < 64 {

      EntryWellFormed63To63(v);

    } else if v < 65 {

      EntryWellFormed64To64(v);

    } else if v < 66 {

      EntryWellFormed65To65(v);

    } else if v < 67 {

      EntryWellFormed66To66(v);

    } else if v < 68 {

      EntryWellFormed67To67(v);

    } else if v < 69 {

      EntryWellFormed68To68(v);

    } else if v < 70 {

      EntryWellFormed69To69(v);

    } else if v < 71 {

      EntryWellFormed70To70(v);

    } else if v < 72 {

      EntryWellFormed71To71(v);

    } else if v < 73 {

      EntryWellFormed72To72(v);

    } else if v < 74 {

      EntryWellFormed73To73(v);

    } else if v < 75 {

      EntryWellFormed74To74(v);

    } else if v < 76 {

      EntryWellFormed75To75(v);

    } else if v < 77 {

      EntryWellFormed76To76(v);

    } else if v < 78 {

      EntryWellFormed77To77(v);

    } else if v < 79 {

      EntryWellFormed78To78(v);

    } else if v < 80 {

      EntryWellFormed79To79(v);

    } else if v < 81 {

      EntryWellFormed80To80(v);

    } else if v < 82 {

      EntryWellFormed81To81(v);

    } else if v < 83 {

      EntryWellFormed82To82(v);

    } else if v < 84 {

      EntryWellFormed83To83(v);

    } else if v < 85 {

      EntryWellFormed84To84(v);

    } else if v < 86 {

      EntryWellFormed85To85(v);

    } else if v < 87 {

      EntryWellFormed86To86(v);

    } else if v < 88 {

      EntryWellFormed87To87(v);

    } else if v < 89 {

      EntryWellFormed88To88(v);

    } else if v < 90 {

      EntryWellFormed89To89(v);

    } else if v < 91 {

      EntryWellFormed90To90(v);

    } else if v < 92 {

      EntryWellFormed91To91(v);

    } else if v < 93 {

      EntryWellFormed92To92(v);

    } else if v < 94 {

      EntryWellFormed93To93(v);

    } else if v < 95 {

      EntryWellFormed94To94(v);

    } else if v < 96 {

      EntryWellFormed95To95(v);

    } else if v < 97 {

      EntryWellFormed96To96(v);

    } else if v < 98 {

      EntryWellFormed97To97(v);

    } else if v < 99 {

      EntryWellFormed98To98(v);

    } else if v < 100 {

      EntryWellFormed99To99(v);

    } else if v < 101 {

      EntryWellFormed100To100(v);

    } else if v < 102 {

      EntryWellFormed101To101(v);

    } else if v < 103 {

      EntryWellFormed102To102(v);

    } else if v < 104 {

      EntryWellFormed103To103(v);

    } else if v < 105 {

      EntryWellFormed104To104(v);

    } else {

      EntryWellFormed105To105(v);

    }

    if v < 8 {

      EntryInverse0To7(v);

    } else if v < 16 {

      EntryInverse8To15(v);

    } else if v < 23 {

      EntryInverse16To22(v);

    } else if v < 30 {

      EntryInverse23To29(v);

    } else if v < 36 {

      EntryInverse30To35(v);

    } else if v < 42 {

      EntryInverse36To41(v);

    } else if v < 47 {

      EntryInverse42To46(v);

    } else if v < 51 {

      EntryInverse47To50(v);

    } else if v < 55 {

      EntryInverse51To54(v);

    } else if v < 58 {

      EntryInverse55To57(v);

    } else if v < 61 {

      EntryInverse58To60(v);

    } else if v < 64 {

      EntryInverse61To63(v);

    } else if v < 66 {

      EntryInverse64To65(v);

    } else if v < 68 {

      EntryInverse66To67(v);

    } else if v < 70 {

      EntryInverse68To69(v);

    } else if v < 72 {

      EntryInverse70To71(v);

    } else if v < 74 {

      EntryInverse72To73(v);

    } else if v < 76 {

      EntryInverse74To75(v);

    } else if v < 78 {

      EntryInverse76To77(v);

    } else if v < 80 {

      EntryInverse78To79(v);

    } else if v < 81 {

      EntryInverse80To80(v);

    } else if v < 82 {

      EntryInverse81To81(v);

    } else if v < 83 {

      EntryInverse82To82(v);

    } else if v < 84 {

      EntryInverse83To83(v);

    } else if v < 85 {

      EntryInverse84To84(v);

    } else if v < 86 {

      EntryInverse85To85(v);

    } else if v < 87 {

      EntryInverse86To86(v);

    } else if v < 88 {

      EntryInverse87To87(v);

    } else if v < 89 {

      EntryInverse88To88(v);

    } else if v < 90 {

      EntryInverse89To89(v);

    } else if v < 91 {

      EntryInverse90To90(v);

    } else if v < 92 {

      EntryInverse91To91(v);

    } else if v < 93 {

      EntryInverse92To92(v);

    } else if v < 94 {

      EntryInverse93To93(v);

    } else if v < 95 {

      EntryInverse94To94(v);

    } else if v < 96 {

      EntryInverse95To95(v);

    } else if v < 97 {

      EntryInverse96To96(v);

    } else if v < 98 {

      EntryInverse97To97(v);

    } else if v < 99 {

      EntryInverse98To98(v);

    } else if v < 100 {

      EntryInverse99To99(v);

    } else if v < 101 {

      EntryInverse100To100(v);

    } else if v < 102 {

      EntryInverse101To101(v);

    } else if v < 103 {

      EntryInverse102To102(v);

    } else if v < 104 {

      EntryInverse103To103(v);

    } else if v < 105 {

      EntryInverse104To104(v);

    } else {

      EntryInverse105To105(v);

    }

  }

  /** `CODE_TO_VALUE` inverts `LEGAL_CODES_128`. */
  lemma CodeToValueInverts(v: int)
    requires 0 <= v < SYMBOL_COUNT
    ensures CodeToValue(LegalCode(v)) == Some(v)
  {
    RowOk(v);
  }

  /** `CODE_TO_VALUE` has no keys other than the table's entries. */
  lemma CodeIndexOnlyEntries(c: int)
    requires CodeIndex(c) >= 0
    ensures CodeIndex(c) < SYMBOL_COUNT && LegalCode(CodeIndex(c)) == c
  {
  }

  lemma CodeIndexSpec(c: int, v: int)
    requires 0 <= v < SYMBOL_COUNT
    ensures CodeIndex(c) == v <==> LegalCode(v) == c
  {
    RowOk(v);
    if CodeIndex(c) >= 0 {
      CodeIndexOnlyEntries(c);
    }
  }

  /** `CodeToValue(c)` is `v` exactly when row `v` of the table is `c`. */
  lemma CodeToValueSpec(c: int, v: int)
    ensures CodeToValue(c) == Some(v) <==> 0 <= v < SYMBOL_COUNT && LegalCode(v) == c
  {
    if 0 <= v < SYMBOL_COUNT {
      CodeIndexSpec(c, v);
    }
  }

  /** The 106 entries are pairwise distinct, so no later `associate` pair overwrites an earlier one. */
  lemma LegalCodesDistinct(v: int, u: int)
    requires 0 <= v < SYMBOL_COUNT && 0 <= u < SYMBOL_COUNT && v != u
    ensures LegalCode(v) != LegalCode(u)
  {
    RowOk(v);
    RowOk(u);
  }
}
