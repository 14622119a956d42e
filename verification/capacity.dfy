/**
 The data-capacity table of the QR code generator page: the most characters
 one QR symbol holds, by symbol version (1..40), error-correction level
 (L, M, Q, H) and encoding mode (Numeric, Alphanumeric, Byte, Kanji), with
 the values of Table 7 of ISO/IEC 18004. The constant is kept in the nesting
 the page uses, `DataCaps[version - 1][level][mode]`.
 */
module Capacity {

  /** Error-correction levels, in the order of the table's second index. */
  datatype Level = L | M | Q | H {
    function Index(): (i: nat)
      ensures i < 4
    {
      match this
      case L => 0
      case M => 1
      case Q => 2
      case H => 3
    }
  }

  /** Encoding modes, in the order of the table's third index. */
  datatype Mode = Numeric | Alphanumeric | Byte | Kanji {
    function Index(): (i: nat)
      ensures i < 4
    {
      match this
      case Numeric => 0
      case Alphanumeric => 1
      case Byte => 2
      case Kanji => 3
    }
  }

  type Version = v: int | 1 <= v <= 40 witness 1

  const Versions: nat := 40

  /** `DATA_CAPS`: version row, then level, then mode. */
  const DataCaps: seq<seq<seq<nat>>> := [
    /* 1 */ [[41, 25, 17, 10], [34, 20, 14, 8], [27, 16, 11, 7], [17, 10, 7, 4]],
    /* 2 */ [[77, 47, 32, 20], [63, 38, 26, 16], [48, 29, 20, 12], [34, 20, 14, 8]],
    /* 3 */ [[127, 77, 53, 32], [101, 61, 42, 26], [77, 47, 32, 20], [58, 35, 24, 15]],
    /* 4 */ [[187, 114, 78, 48], [149, 90, 62, 38], [111, 67, 46, 28], [82, 50, 34, 21]],
    /* 5 */ [[255, 154, 106, 65], [202, 122, 84, 52], [144, 87, 60, 37], [106, 64, 44, 27]],
    /* 6 */ [[322, 195, 134, 82], [255, 154, 106, 65], [178, 108, 74, 45], [139, 84, 58, 36]],
    /* 7 */ [[370, 224, 154, 95], [293, 178, 122, 75], [207, 125, 86, 53], [154, 93, 64, 39]],
    /* 8 */ [[461, 279, 192, 118], [365, 221, 152, 93], [259, 157, 108, 66], [202, 122, 84, 52]],
    /* 9 */ [[552, 335, 230, 141], [432, 262, 180, 111], [312, 189, 130, 80], [235, 143, 98, 60]],
    /* 10 */ [[652, 395, 271, 167], [513, 311, 213, 131], [364, 221, 151, 93], [288, 174, 119, 74]],
    /* 11 */ [[772, 468, 321, 198], [604, 366, 251, 155], [427, 259, 177, 109], [331, 200, 137, 85]],
    /* 12 */ [[883, 535, 367, 226], [691, 419, 287, 177], [489, 296, 203, 125], [374, 227, 155, 96]],
    /* 13 */ [[1022, 619, 425, 262], [796, 483, 331, 204], [580, 352, 241, 149], [427, 259, 177, 109]],
    /* 14 */ [[1101, 667, 458, 282], [871, 528, 362, 223], [621, 376, 258, 159], [468, 283, 194, 120]],
    /* 15 */ [[1250, 758, 520, 320], [991, 600, 412, 254], [703, 426, 292, 180], [530, 321, 220, 136]],
    /* 16 */ [[1408, 854, 586, 361], [1082, 656, 450, 277], [775, 470, 322, 198], [602, 365, 250, 154]],
    /* 17 */ [[1548, 938, 644, 397], [1212, 734, 504, 310], [876, 531, 364, 224], [674, 408, 280, 173]],
    /* 18 */ [[1725, 1046, 718, 442], [1346, 816, 560, 345], [948, 574, 394, 243], [746, 452, 310, 191]],
    /* 19 */ [[1903, 1153, 792, 488], [1500, 909, 624, 384], [1063, 644, 442, 272], [813, 493, 338, 208]],
    /* 20 */ [[2061, 1249, 858, 528], [1600, 970, 666, 410], [1159, 702, 482, 297], [919, 557, 382, 235]],
    /* 21 */ [[2232, 1352, 929, 572], [1708, 1035, 711, 438], [1224, 742, 509, 314], [969, 587, 403, 248]],
    /* 22 */ [[2409, 1460, 1003, 618], [1872, 1134, 779, 480], [1358, 823, 565, 348], [1056, 640, 439, 270]],
    /* 23 */ [[2620, 1588, 1091, 672], [2059, 1248, 857, 528], [1468, 890, 611, 376], [1108, 672, 461, 284]],
    /* 24 */ [[2812, 1704, 1171, 721], [2188, 1326, 911, 561], [1588, 963, 661, 407], [1228, 744, 511, 315]],
    /* 25 */ [[3057, 1853, 1273, 784], [2395, 1451, 997, 614], [1718, 1041, 715, 440], [1286, 779, 535, 330]],
    /* 26 */ [[3283, 1990, 1367, 842], [2544, 1542, 1059, 652], [1804, 1094, 751, 462], [1425, 864, 593, 365]],
    /* 27 */ [[3517, 2132, 1465, 902], [2701, 1637, 1125, 692], [1933, 1172, 805, 496], [1501, 910, 625, 385]],
    /* 28 */ [[3669, 2223, 1528, 940], [2857, 1732, 1190, 732], [2085, 1263, 868, 534], [1581, 958, 658, 405]],
    /* 29 */ [[3909, 2369, 1628, 1002], [3035, 1839, 1264, 778], [2181, 1322, 908, 559], [1677, 1016, 698, 430]],
    /* 30 */ [[4158, 2520, 1732, 1066], [3289, 1994, 1370, 843], [2358, 1429, 982, 604], [1782, 1080, 742, 457]],
    /* 31 */ [[4417, 2677, 1840, 1132], [3486, 2113, 1452, 894], [2473, 1499, 1030, 634], [1897, 1150, 790, 486]],
    /* 32 */ [[4686, 2840, 1952, 1201], [3693, 2238, 1538, 947], [2670, 1618, 1112, 684], [2022, 1226, 842, 518]],
    /* 33 */ [[4965, 3009, 2068, 1273], [3909, 2369, 1628, 1002], [2805, 1700, 1168, 719], [2157, 1307, 898, 553]],
    /* 34 */ [[5253, 3183, 2188, 1347], [4134, 2506, 1722, 1060], [2949, 1787, 1228, 756], [2301, 1394, 958, 590]],
    /* 35 */ [[5529, 3351, 2303, 1417], [4343, 2632, 1809, 1113], [3081, 1867, 1283, 790], [2361, 1431, 983, 605]],
    /* 36 */ [[5836, 3537, 2431, 1496], [4588, 2780, 1911, 1176], [3244, 1966, 1351, 832], [2524, 1530, 1051, 647]],
    /* 37 */ [[6153, 3729, 2563, 1577], [4775, 2894, 1989, 1224], [3417, 2071, 1423, 876], [2625, 1591, 1093, 673]],
    /* 38 */ [[6479, 3927, 2699, 1661], [5039, 3054, 2099, 1292], [3599, 2181, 1499, 923], [2735, 1658, 1139, 701]],
    /* 39 */ [[6743, 4087, 2809, 1729], [5313, 3220, 2213, 1362], [3791, 2298, 1579, 972], [2927, 1774, 1219, 750]],
    /* 40 */ [[7089, 4296, 2953, 1817], [5596, 3391, 2331, 1435], [3993, 2420, 1663, 1024], [3057, 1852, 1273, 784]]
  ]

  /** Four entries, strictly decreasing from first to last. */
  predicate Decreasing4(s: seq<nat>) {
    |s| == 4 && s[0] > s[1] > s[2] > s[3]
  }

  /** Two four-entry rows, the first strictly below the second entry by entry. */
  predicate Below4(a: seq<nat>, b: seq<nat>) {
    |a| == 4 && |b| == 4 && a[0] < b[0] && a[1] < b[1] && a[2] < b[2] && a[3] < b[3]
  }

  /**
   One version row: four levels of four modes, each level's capacities
   strictly decreasing by mode, and each level strictly below the one
   before it.
   */
  predicate RowOrdered(r: seq<seq<nat>>) {
    && |r| == 4
    && Decreasing4(r[0]) && Decreasing4(r[1]) && Decreasing4(r[2]) && Decreasing4(r[3])
    && Below4(r[1], r[0]) && Below4(r[2], r[1]) && Below4(r[3], r[2])
  }

  /** Every entry of version row `a` strictly below the same entry of row `b`. */
  predicate Below(a: seq<seq<nat>>, b: seq<seq<nat>>) {
    |a| == 4 && |b| == 4 && Below4(a[0], b[0]) && Below4(a[1], b[1]) && Below4(a[2], b[2]) && Below4(a[3], b[3])
  }

  /** Rows `lo..hi-1` are ordered and each is below its successor. */
  predicate OrderedBetween(rows: seq<seq<seq<nat>>>, lo: nat, hi: nat)
    requires hi < |rows|
    decreases hi - lo
  {
    lo >= hi || (RowOrdered(rows[lo]) && Below(rows[lo], rows[lo + 1]) && OrderedBetween(rows, lo + 1, hi))
  }

  lemma {:induction false} OrderedBetweenMeans(rows: seq<seq<seq<nat>>>, lo: nat, hi: nat)
    requires hi < |rows| && OrderedBetween(rows, lo, hi)
    ensures forall t :: lo <= t < hi ==> RowOrdered(rows[t]) && Below(rows[t], rows[t + 1])
    decreases hi - lo
  {
    if lo < hi {
      OrderedBetweenMeans(rows, lo + 1, hi);
    }
  }

  /** Entry `[e][m]` of version row `a` is strictly below the same entry of row `b`. */
  predicate EntryBelow(a: seq<seq<nat>>, b: seq<seq<nat>>, e: nat, m: nat) {
    && e < |a| && e < |b| && m < |a[e]| && m < |b[e]|
    && a[e][m] < b[e][m]
  }

  lemma BelowAt(a: seq<seq<nat>>, b: seq<seq<nat>>, e: nat, m: nat)
    requires Below(a, b) && e < 4 && m < 4
    ensures EntryBelow(a, b, e, m)
  {
    assert Below4(a[e], b[e]);
  }

  /** In an ordered version row, a later level holds strictly less than an earlier one, mode by mode. */
  lemma RowFallsByLevel(r: seq<seq<nat>>, e1: nat, e2: nat, m: nat)
    requires RowOrdered(r) && e1 < e2 < 4 && m < 4
    ensures r[e2][m] < r[e1][m]
  {
  }

  /** In an ordered version row, a later mode holds strictly less than an earlier one, level by level. */
  lemma RowFallsByMode(r: seq<seq<nat>>, e: nat, m1: nat, m2: nat)
    requires RowOrdered(r) && e < 4 && m1 < m2 < 4
    ensures r[e][m2] < r[e][m1]
  {
  }

  // The table is checked four version rows at a time: each lemma below
  // evaluates its rows of the constant, and a single lemma for all forty rows
  // would be too large a proof obligation.

  lemma RowsOrdered1To4(rows: seq<seq<seq<nat>>>)
    requires rows == DataCaps
    ensures forall t :: 0 <= t < 4 ==> RowOrdered(rows[t]) && Below(rows[t], rows[t + 1])
  {
    assert OrderedBetween(rows, 3, 4);
    assert OrderedBetween(rows, 2, 4);
    assert OrderedBetween(rows, 1, 4);
    assert OrderedBetween(rows, 0, 4);
    OrderedBetweenMeans(rows, 0, 4);
  }

  lemma RowsOrdered5To8(rows: seq<seq<seq<nat>>>)
    requires rows == DataCaps
    ensures forall t :: 4 <= t < 8 ==> RowOrdered(rows[t]) && Below(rows[t], rows[t + 1])
  {
    assert OrderedBetween(rows, 7, 8);
    assert OrderedBetween(rows, 6, 8);
    assert OrderedBetween(rows, 5, 8);
    assert OrderedBetween(rows, 4, 8);
    OrderedBetweenMeans(rows, 4, 8);
  }

  lemma RowsOrdered9To12(rows: seq<seq<seq<nat>>>)
    requires rows == DataCaps
    ensures forall t :: 8 <= t < 12 ==> RowOrdered(rows[t]) && Below(rows[t], rows[t + 1])
  {
    assert OrderedBetween(rows, 11, 12);
    assert OrderedBetween(rows, 10, 12);
    assert OrderedBetween(rows, 9, 12);
    assert OrderedBetween(rows, 8, 12);
    OrderedBetweenMeans(rows, 8, 12);
  }

  lemma RowsOrdered13To16(rows: seq<seq<seq<nat>>>)
    requires rows == DataCaps
    ensures forall t :: 12 <= t < 16 ==> RowOrdered(rows[t]) && Below(rows[t], rows[t + 1])
  {
    assert OrderedBetween(rows, 15, 16);
    assert OrderedBetween(rows, 14, 16);
    assert OrderedBetween(rows, 13, 16);
    assert OrderedBetween(rows, 12, 16);
    OrderedBetweenMeans(rows, 12, 16);
  }

  lemma RowsOrdered17To20(rows: seq<seq<seq<nat>>>)
    requires rows == DataCaps
    ensures forall t :: 16 <= t < 20 ==> RowOrdered(rows[t]) && Below(rows[t], rows[t + 1])
  {
    assert OrderedBetween(rows, 19, 20);
    assert OrderedBetween(rows, 18, 20);
    assert OrderedBetween(rows, 17, 20);
    assert OrderedBetween(rows, 16, 20);
    OrderedBetweenMeans(rows, 16, 20);
  }

  lemma RowsOrdered21To24(rows: seq<seq<seq<nat>>>)
    requires rows == DataCaps
    ensures forall t :: 20 <= t < 24 ==> RowOrdered(rows[t]) && Below(rows[t], rows[t + 1])
  {
    assert OrderedBetween(rows, 23, 24);
    assert OrderedBetween(rows, 22, 24);
    assert OrderedBetween(rows, 21, 24);
    assert OrderedBetween(rows, 20, 24);
    OrderedBetweenMeans(rows, 20, 24);
  }

  lemma RowsOrdered25To28(rows: seq<seq<seq<nat>>>)
    requires rows == DataCaps
    ensures forall t :: 24 <= t < 28 ==> RowOrdered(rows[t]) && Below(rows[t], rows[t + 1])
  {
    assert OrderedBetween(rows, 27, 28);
    assert OrderedBetween(rows, 26, 28);
    assert OrderedBetween(rows, 25, 28);
    assert OrderedBetween(rows, 24, 28);
    OrderedBetweenMeans(rows, 24, 28);
  }

  lemma RowsOrdered29To32(rows: seq<seq<seq<nat>>>)
    requires rows == DataCaps
    ensures forall t :: 28 <= t < 32 ==> RowOrdered(rows[t]) && Below(rows[t], rows[t + 1])
  {
    assert OrderedBetween(rows, 31, 32);
    assert OrderedBetween(rows, 30, 32);
    assert OrderedBetween(rows, 29, 32);
    assert OrderedBetween(rows, 28, 32);
    OrderedBetweenMeans(rows, 28, 32);
  }

  lemma RowsOrdered33To36(rows: seq<seq<seq<nat>>>)
    requires rows == DataCaps
    ensures forall t :: 32 <= t < 36 ==> RowOrdered(rows[t]) && Below(rows[t], rows[t + 1])
  {
    assert OrderedBetween(rows, 35, 36);
    assert OrderedBetween(rows, 34, 36);
    assert OrderedBetween(rows, 33, 36);
    assert OrderedBetween(rows, 32, 36);
    OrderedBetweenMeans(rows, 32, 36);
  }

  lemma RowsOrdered37To39(rows: seq<seq<seq<nat>>>)
    requires rows == DataCaps
    ensures forall t :: 36 <= t < 39 ==> RowOrdered(rows[t]) && Below(rows[t], rows[t + 1])
    ensures RowOrdered(rows[39])
  {
    assert OrderedBetween(rows, 38, 39);
    assert OrderedBetween(rows, 37, 39);
    assert OrderedBetween(rows, 36, 39);
    assert RowOrdered(rows[39]);
    OrderedBetweenMeans(rows, 36, 39);
  }

  /** The shape and the orderings of the whole table. */
  lemma TableOrdered()
    ensures |DataCaps| == Versions
    ensures forall t :: 0 <= t < Versions ==> RowOrdered(DataCaps[t])
    ensures forall t :: 0 <= t < Versions - 1 ==> Below(DataCaps[t], DataCaps[t + 1])
  {
    RowsOrdered1To4(DataCaps);
    RowsOrdered5To8(DataCaps);
    RowsOrdered9To12(DataCaps);
    RowsOrdered13To16(DataCaps);
    RowsOrdered17To20(DataCaps);
    RowsOrdered21To24(DataCaps);
    RowsOrdered25To28(DataCaps);
    RowsOrdered29To32(DataCaps);
    RowsOrdered33To36(DataCaps);
    RowsOrdered37To39(DataCaps);
  }

  /** `DATA_CAPS[version - 1][level][mode]`. */
  function Capacity(v: Version, l: Level, m: Mode): nat
  {
    TableOrdered();
    DataCaps[v - 1][l.Index()][m.Index()]
  }

  /** The table holds 40 version rows, each of 4 levels by 4 modes. */
  lemma TableShape()
    ensures |DataCaps| == 40
    ensures forall t :: 0 <= t < |DataCaps| ==> |DataCaps[t]| == 4
    ensures forall t, e :: 0 <= t < |DataCaps| && 0 <= e < 4 ==> |DataCaps[t][e]| == 4
  {
    TableOrdered();
  }

  /** The `DATA_CAPS` entry of version `v`: four levels, each of four modes. */
  function VersionRow(v: Version): (caps: seq<seq<nat>>)
    ensures |caps| == 4 && forall e :: 0 <= e < 4 ==> |caps[e]| == 4
    ensures forall l: Level, m: Mode :: caps[l.Index()][m.Index()] == Capacity(v, l, m)
  {
    TableShape();
    DataCaps[v - 1]
  }

  /** Each version holds strictly more than the one before, at every level and mode. */
  lemma CapacityStep(v: Version, l: Level, m: Mode)
    requires v < Versions
    ensures Capacity(v, l, m) < Capacity(v + 1, l, m)
  {
    var rows := DataCaps;
    TableOrdered();
    BelowAt(rows[v - 1], rows[v], l.Index(), m.Index());
  }

  /** For a fixed level and mode, a higher version holds strictly more characters. */
  lemma {:induction false} CapacityIncreasesWithVersion(v1: Version, v2: Version, l: Level, m: Mode)
    requires v1 < v2
    ensures Capacity(v1, l, m) < Capacity(v2, l, m)
    decreases v2 - v1
  {
    CapacityStep(v1, l, m);
    if v1 + 1 < v2 {
      CapacityIncreasesWithVersion(v1 + 1, v2, l, m);
    }
  }

  /** For a fixed version and mode, a stricter level (L, M, Q, H) holds strictly fewer characters. */
  lemma CapacityDecreasesWithLevel(v: Version, l1: Level, l2: Level, m: Mode)
    requires l1.Index() < l2.Index()
    ensures Capacity(v, l1, m) > Capacity(v, l2, m)
  {
    var rows := DataCaps;
    TableOrdered();
    RowFallsByLevel(rows[v - 1], l1.Index(), l2.Index(), m.Index());
  }

  /** For a fixed version and level, capacity strictly decreases Numeric, Alphanumeric, Byte, Kanji. */
  lemma CapacityDecreasesWithMode(v: Version, l: Level, m1: Mode, m2: Mode)
    requires m1.Index() < m2.Index()
    ensures Capacity(v, l, m1) > Capacity(v, l, m2)
  {
    var rows := DataCaps;
    TableOrdered();
    RowFallsByMode(rows[v - 1], l.Index(), m1.Index(), m2.Index());
  }

  /**
   Every entry of the table lies between the smallest, 4 (version 1, level H,
   Kanji), and the largest, 7089 (version 40, level L, Numeric).
   */
  lemma CapacityBounds(v: Version, l: Level, m: Mode)
    ensures Capacity(1, H, Kanji) == 4 && Capacity(40, L, Numeric) == 7089
    ensures Capacity(1, H, Kanji) <= Capacity(v, l, m) <= Capacity(40, L, Numeric)
  {
    if m != Kanji {
      CapacityDecreasesWithMode(1, H, m, Kanji);
    }
    if l != H {
      CapacityDecreasesWithLevel(1, l, H, m);
    }
    if v > 1 {
      CapacityIncreasesWithVersion(1, v, l, m);
    }
    if m != Numeric {
      CapacityDecreasesWithMode(40, L, Numeric, m);
    }
    if l != L {
      CapacityDecreasesWithLevel(40, L, l, m);
    }
    if v < 40 {
      CapacityIncreasesWithVersion(v, 40, l, m);
    }
  }
}
