/** The generator of include/util/random.h runs through all its seeds: 16807 has the order 2^31-2 modulo 2^31-1. */
module RandomPeriods {
  import opened Randoms

  /** The seed after `k` steps. */
  function Iterate(seed: nat, k: nat): nat {
    if k == 0 then seed else Successor(Iterate(seed, k - 1))
  }

  /** The seed after `k` steps from 1, which is a power of 16807. */
  function Power(k: nat): nat {
    Iterate(1, k)
  }

  lemma {:induction false} IterateIsSeed(seed: nat, k: nat)
    requires IsSeed(seed)
    ensures IsSeed(Iterate(seed, k))
  {
    if k > 0 {
      IterateIsSeed(seed, k - 1);
      StaysInRange(Iterate(seed, k - 1));
    }
  }

  lemma {:induction false} IterateAdd(seed: nat, j: nat, k: nat)
    ensures Iterate(seed, j + k) == Iterate(Iterate(seed, j), k)
  {
    if k > 0 {
      IterateAdd(seed, j, k - 1);
    }
  }

  /** A product may be reduced before it is multiplied on. */
  lemma ReduceFirst(x: nat, y: nat)
    ensures (x % M) * y % M == x * y % M
  {
    var q := x / M;
    assert x * y == q * y * M + (x % M) * y;
    AddMultiple((x % M) * y, q * y);
  }

  lemma AddMultiple(x: nat, q: nat)
    ensures (q * M + x) % M == x % M
  {
    assert q * M + x == (q + x / M) * M + x % M;
    RemainderUnique(q * M + x, q + x / M, x % M);
  }

  lemma {:induction false} IterateScales(seed: nat, k: nat)
    requires seed < M
    ensures Iterate(seed, k) == seed * Power(k) % M
  {
    if k > 0 {
      IterateScales(seed, k - 1);
      ReduceFirst(seed * Power(k - 1), A);
      ReduceFirst(Power(k - 1) * A, seed);
      assert seed * Power(k - 1) * A == Power(k - 1) * A * seed;
      assert Power(k) * seed == seed * Power(k);
    }
  }

  lemma PowerAdd(j: nat, k: nat)
    ensures Power(j + k) == Power(j) * Power(k) % M
  {
    IterateAdd(1, j, k);
    IterateIsSeed(1, j);
    IterateScales(Power(j), k);
  }

  // ----- Powers by squaring

  lemma Doubled(k: nat, x: nat, q: nat, y: nat)
    requires Power(k) == x && x * x == q * M + y && y < M
    ensures Power(2 * k) == y
  {
    PowerAdd(k, k);
    RemainderUnique(x * x, q, y);
  }

  lemma DoubledNext(k: nat, x: nat, q: nat, y: nat, r: nat, z: nat)
    requires Power(k) == x && x * x == q * M + y && y < M
    requires y * A == r * M + z && z < M
    ensures Power(2 * k + 1) == z
  {
    Doubled(k, x, q, y);
    RemainderUnique(y * A, r, z);
  }

  lemma PowerHalfStart(k: nat)
    requires 2 * (32768 * k + 32767) + 1 == M
    ensures Power(k) == 1079224412
  {
    var k0: nat := 1;
    DoubledNext(k0, 16807, 0, 282475249, 2210, 1622650073);
    var k1 := 2 * k0 + 1;
    DoubledNext(k1, 1622650073, 1226083031, 470211272, 3680, 101027544);
    var k2 := 2 * k1 + 1;
    DoubledNext(k2, 101027544, 4752802, 74243042, 581, 114807987);
    var k3 := 2 * k2 + 1;
    DoubledNext(k3, 114807987, 6137822, 1505795335, 11784, 1954899097);
    var k4 := 2 * k3 + 1;
    DoubledNext(k4, 1954899097, 1779585369, 1083454666, 8479, 1108728549);
    var k5 := 2 * k4 + 1;
    DoubledNext(k5, 1108728549, 572427639, 1524325968, 11929, 2014119113);
    var k6 := 2 * k5 + 1;
    DoubledNext(k6, 2014119113, 1889036876, 1561939997, 12224, 685428651);
    var k7 := 2 * k6 + 1;
    DoubledNext(k7, 685428651, 218773463, 1421620240, 11126, 268317158);
    var k8 := 2 * k7 + 1;
    DoubledNext(k8, 268317158, 33524864, 69297956, 542, 754609818);
    var k9 := 2 * k8 + 1;
    DoubledNext(k9, 754609818, 265164290, 878627494, 6876, 994734886);
    var k10 := 2 * k9 + 1;
    DoubledNext(k10, 994734886, 460770676, 1698297624, 13291, 1083014291);
    var k11 := 2 * k10 + 1;
    DoubledNext(k11, 1083014291, 546183416, 387634529, 3033, 1655627552);
    var k12 := 2 * k11 + 1;
    DoubledNext(k12, 1655627552, 1276425361, 1577941137, 12349, 1181132756);
    var k13 := 2 * k12 + 1;
    DoubledNext(k13, 1181132756, 649632228, 1101980020, 8624, 1079224412);
    var k14 := 2 * k13 + 1;
    assert k14 == k;
  }

  lemma PowerHalf(n: nat)
    requires 2 * n + 1 == M
    ensures Power(n) == 2147483646
  {
    var k0 := n / 32768;
    PowerHalfStart(k0);
    DoubledNext(k0, 1079224412, 542367497, 984924185, 7708, 816826219);
    var k1 := 2 * k0 + 1;
    DoubledNext(k1, 816826219, 310691572, 1915112877, 14988, 817222503);
    var k2 := 2 * k1 + 1;
    DoubledNext(k2, 817222503, 310993110, 1354912839, 10604, 103492285);
    var k3 := 2 * k2 + 1;
    DoubledNext(k3, 103492285, 4987536, 1055697433, 8262, 596864917);
    var k4 := 2 * k3 + 1;
    DoubledNext(k4, 596864917, 165890776, 497276817, 3891, 1872592842);
    var k5 := 2 * k4 + 1;
    DoubledNext(k5, 1872592842, 1632889711, 182580947, 1428, 2031328313);
    var k6 := 2 * k5 + 1;
    DoubledNext(k6, 2031328313, 1921455709, 1683135246, 13172, 1799481238);
    var k7 := 2 * k6 + 1;
    DoubledNext(k7, 1799481238, 1507873054, 697064706, 5455, 1043219357);
    var k8 := 2 * k7 + 1;
    DoubledNext(k8, 1043219357, 506782265, 142372994, 1114, 566127400);
    var k9 := 2 * k8 + 1;
    DoubledNext(k9, 566127400, 149244551, 354402503, 2773, 1470714790);
    var k10 := 2 * k9 + 1;
    DoubledNext(k10, 1470714790, 1007226293, 478813529, 3747, 797756594);
    var k11 := 2 * k10 + 1;
    DoubledNext(k11, 797756594, 296354099, 1946561783, 15234, 1098008483);
    var k12 := 2 * k11 + 1;
    DoubledNext(k12, 1098008483, 561411785, 1219381394, 9543, 706645637);
    var k13 := 2 * k12 + 1;
    DoubledNext(k13, 706645637, 232527058, 1751115243, 13704, 1877990613);
    var k14 := 2 * k13 + 1;
    DoubledNext(k14, 1877990613, 1642316926, 739806647, 5789, 2147483646);
    var k15 := 2 * k14 + 1;
    assert k15 == n;
  }

  lemma PowerThirdStart(k: nat)
    requires 3 * (32768 * k + 10922) + 1 == M
    ensures Power(k) == 1283266847
  {
    var k0: nat := 1;
    Doubled(k0, 16807, 0, 282475249);
    var k1 := 2 * k0;
    DoubledNext(k1, 282475249, 37156169, 984943658, 7708, 1144108930);
    var k2 := 2 * k1 + 1;
    Doubled(k2, 1144108930, 609543753, 2007237709);
    var k3 := 2 * k2;
    DoubledNext(k3, 2007237709, 1876150827, 143542612, 1123, 896544303);
    var k4 := 2 * k3 + 1;
    Doubled(k4, 896544303, 374294671, 2110010672);
    var k5 := 2 * k4;
    DoubledNext(k5, 2110010672, 2073191589, 1478446501, 11570, 1864546517);
    var k6 := 2 * k5 + 1;
    Doubled(k6, 1864546517, 1618887165, 881140534);
    var k7 := 2 * k6;
    DoubledNext(k7, 881140534, 361543447, 545293947, 4267, 1442645480);
    var k8 := 2 * k7 + 1;
    Doubled(k8, 1442645480, 969146369, 1987502657);
    var k9 := 2 * k8;
    DoubledNext(k9, 1987502657, 1839439763, 898003988, 7028, 237955200);
    var k10 := 2 * k9 + 1;
    Doubled(k10, 237955200, 26366988, 1656394764);
    var k11 := 2 * k10;
    DoubledNext(k11, 1656394764, 1277608617, 1932829497, 15127, 80227910);
    var k12 := 2 * k11 + 1;
    Doubled(k12, 80227910, 2997237, 99284761);
    var k13 := 2 * k12;
    DoubledNext(k13, 99284761, 4590239, 578505488, 4527, 1283266847);
    var k14 := 2 * k13 + 1;
    assert k14 == k;
  }

  lemma PowerThird(n: nat)
    requires 3 * n + 1 == M
    ensures Power(n) == 634005911
  {
    var k0 := n / 32768;
    PowerThirdStart(k0);
    Doubled(k0, 1283266847, 766838808, 544348633);
    var k1 := 2 * k0;
    DoubledNext(k1, 544348633, 137982626, 1343851667, 10517, 1029451770);
    var k2 := 2 * k1 + 1;
    Doubled(k2, 1029451770, 493494303, 1175969859);
    var k3 := 2 * k2;
    DoubledNext(k3, 1175969859, 643965373, 1524724550, 11933, 123152199);
    var k4 := 2 * k3 + 1;
    Doubled(k4, 123152199, 7062435, 448035156);
    var k5 := 2 * k4;
    DoubledNext(k5, 448035156, 93474751, 1832047439, 14338, 600776587);
    var k6 := 2 * k5 + 1;
    Doubled(k6, 600776587, 168072296, 313625057);
    var k7 := 2 * k6;
    DoubledNext(k7, 313625057, 45802759, 438271176, 3430, 154745822);
    var k8 := 2 * k7 + 1;
    Doubled(k8, 154745822, 11150850, 1401305734);
    var k9 := 2 * k8;
    DoubledNext(k9, 1401305734, 914399400, 1814666956, 14202, 544774798);
    var k10 := 2 * k9 + 1;
    Doubled(k10, 544774798, 138198761, 1252779437);
    var k11 := 2 * k10;
    DoubledNext(k11, 1252779437, 730835049, 1388093266, 10863, 1568664301);
    var k12 := 2 * k11 + 1;
    Doubled(k12, 1568664301, 1145856310, 1695056031);
    var k13 := 2 * k12;
    DoubledNext(k13, 1695056031, 1337944972, 273600077, 2141, 634005912);
    var k14 := 2 * k13 + 1;
    Doubled(k14, 634005912, 187178839, 634005911);
    var k15 := 2 * k14;
    assert k15 == n;
  }

  lemma PowerSeventhStart(k: nat)
    requires 7 * (32768 * k + 9362) + 1 == M
    ensures Power(k) == 1588280530
  {
    var k0: nat := 1;
    Doubled(k0, 16807, 0, 282475249);
    var k1 := 2 * k0;
    Doubled(k1, 282475249, 37156169, 984943658);
    var k2 := 2 * k1;
    DoubledNext(k2, 984943658, 451744538, 1457850878, 11409, 1458777923);
    var k3 := 2 * k2 + 1;
    Doubled(k3, 1458777923, 990942600, 16531729);
    var k4 := 2 * k3;
    Doubled(k4, 16531729, 127264, 704877633);
    var k5 := 2 * k4;
    DoubledNext(k5, 704877633, 231364964, 824938981, 6456, 595028635);
    var k6 := 2 * k5 + 1;
    Doubled(k6, 595028635, 164871605, 877819790);
    var k7 := 2 * k6;
    Doubled(k7, 877819790, 358823493, 338725129);
    var k8 := 2 * k7;
    DoubledNext(k8, 338725129, 53427514, 401203083, 3139, 2069048048);
    var k9 := 2 * k8 + 1;
    Doubled(k9, 2069048048, 1993477263, 1973792143);
    var k10 := 2 * k9;
    Doubled(k10, 1973792143, 1814149052, 1377979805);
    var k11 := 2 * k10;
    DoubledNext(k11, 1377979805, 884210850, 2112868075, 16536, 184149733);
    var k12 := 2 * k11 + 1;
    Doubled(k12, 184149733, 15791097, 1588280530);
    var k13 := 2 * k12;
    assert k13 == k;
  }

  lemma PowerSeventh(n: nat)
    requires 7 * n + 1 == M
    ensures Power(n) == 1600955193
  {
    var k0 := n / 32768;
    PowerSeventhStart(k0);
    Doubled(k0, 1588280530, 1174693481, 1292075693);
    var k1 := 2 * k0;
    DoubledNext(k1, 1292075693, 777402705, 320365114, 2507, 634967969);
    var k2 := 2 * k1 + 1;
    Doubled(k2, 634967969, 187747330, 713072451);
    var k3 := 2 * k2;
    Doubled(k3, 713072451, 236775875, 808531276);
    var k4 := 2 * k3;
    DoubledNext(k4, 808531276, 304413412, 72714612, 569, 196288741);
    var k5 := 2 * k4 + 1;
    Doubled(k5, 196288741, 17941589, 864669998);
    var k6 := 2 * k5;
    Doubled(k6, 864669998, 348153619, 1994951511);
    var k7 := 2 * k6;
    DoubledNext(k7, 1994951511, 1853253474, 2080243443, 16280, 1617773341);
    var k8 := 2 * k7 + 1;
    Doubled(k8, 1617773341, 1218724336, 1089368889);
    var k9 := 2 * k8;
    Doubled(k9, 1089368889, 552611694, 315126303);
    var k10 := 2 * k9;
    DoubledNext(k10, 315126303, 46242301, 1645296062, 12876, 1491475262);
    var k11 := 2 * k10 + 1;
    Doubled(k11, 1491475262, 1035862815, 1410082339);
    var k12 := 2 * k11;
    Doubled(k12, 1410082339, 925889333, 1210473470);
    var k13 := 2 * k12;
    DoubledNext(k13, 1210473470, 682308348, 2032255744, 15905, 394883873);
    var k14 := 2 * k13 + 1;
    Doubled(k14, 394883873, 72612088, 1600955193);
    var k15 := 2 * k14;
    assert k15 == n;
  }

  lemma PowerEleventhStart(k: nat)
    requires 11 * (32768 * k + 26810) + 1 == M
    ensures Power(k) == 130893364
  {
    var k0: nat := 1;
    Doubled(k0, 16807, 0, 282475249);
    var k1 := 2 * k0;
    DoubledNext(k1, 282475249, 37156169, 984943658, 7708, 1144108930);
    var k2 := 2 * k1 + 1;
    DoubledNext(k2, 1144108930, 609543753, 2007237709, 15709, 823564440);
    var k3 := 2 * k2 + 1;
    DoubledNext(k3, 823564440, 315838673, 1474833169, 11542, 1264817709);
    var k4 := 2 * k3 + 1;
    Doubled(k4, 1264817709, 744948088, 156091745);
    var k5 := 2 * k4;
    DoubledNext(k5, 156091745, 11345666, 657821123, 5148, 753799505);
    var k6 := 2 * k5 + 1;
    Doubled(k6, 753799505, 264595120, 462242385);
    var k7 := 2 * k6;
    Doubled(k7, 462242385, 99496926, 978719103);
    var k8 := 2 * k7;
    Doubled(k8, 978719103, 446052794, 1763464891);
    var k9 := 2 * k8;
    DoubledNext(k9, 1763464891, 1448117393, 1385869610, 10846, 702899908);
    var k10 := 2 * k9 + 1;
    Doubled(k10, 702899908, 230068471, 1503614727);
    var k11 := 2 * k10;
    DoubledNext(k11, 1503614727, 1052793696, 1426595217, 11165, 130893364);
    var k12 := 2 * k11 + 1;
    assert k12 == k;
  }

  lemma PowerEleventh(n: nat)
    requires 11 * n + 1 == M
    ensures Power(n) == 298192073
  {
    var k0 := n / 32768;
    PowerEleventhStart(k0);
    DoubledNext(k0, 130893364, 7978208, 1526871920, 11949, 1854261437);
    var k1 := 2 * k0 + 1;
    DoubledNext(k1, 1854261437, 1601076441, 2100844642, 16441, 2117257767);
    var k2 := 2 * k1 + 1;
    Doubled(k2, 2117257767, 2087457316, 2001314837);
    var k3 := 2 * k2;
    DoubledNext(k3, 2001314837, 1865095029, 1917845806, 15009, 1652403619);
    var k4 := 2 * k3 + 1;
    Doubled(k4, 1652403619, 1271459144, 515678993);
    var k5 := 2 * k4;
    Doubled(k5, 515678993, 123830895, 1815619984);
    var k6 := 2 * k5;
    Doubled(k6, 1815619984, 1535041224, 289296328);
    var k7 := 2 * k6;
    DoubledNext(k7, 289296328, 38972294, 1343207366, 10512, 938103098);
    var k8 := 2 * k7 + 1;
    Doubled(k8, 938103098, 409799359, 473615331);
    var k9 := 2 * k8;
    DoubledNext(k9, 473615331, 104453173, 863477630, 6757, 1921524631);
    var k10 := 2 * k9 + 1;
    DoubledNext(k10, 1921524631, 1719341105, 937276226, 7335, 1008979637);
    var k11 := 2 * k10 + 1;
    DoubledNext(k11, 1008979637, 474061774, 547841991, 4287, 1317948048);
    var k12 := 2 * k11 + 1;
    Doubled(k12, 1317948048, 808847629, 1034787341);
    var k13 := 2 * k12;
    DoubledNext(k13, 1034787341, 498623047, 1644037872, 12866, 1819912402);
    var k14 := 2 * k13 + 1;
    Doubled(k14, 1819912402, 1542307973, 298192073);
    var k15 := 2 * k14;
    assert k15 == n;
  }

  lemma PowerThirtyFirstStart(k: nat)
    requires 31 * (32768 * k + 2114) + 1 == M
    ensures Power(k) == 111398400
  {
    var k0: nat := 1;
    Doubled(k0, 16807, 0, 282475249);
    var k1 := 2 * k0;
    Doubled(k1, 282475249, 37156169, 984943658);
    var k2 := 2 * k1;
    Doubled(k2, 984943658, 451744538, 1457850878);
    var k3 := 2 * k2;
    Doubled(k3, 1457850878, 989683523, 1137522503);
    var k4 := 2 * k3;
    DoubledNext(k4, 1137522503, 602545889, 1636807826, 12810, 563613512);
    var k5 := 2 * k4 + 1;
    Doubled(k5, 563613512, 147922053, 1060806853);
    var k6 := 2 * k5;
    Doubled(k6, 1060806853, 524013852, 1400285365);
    var k7 := 2 * k6;
    Doubled(k7, 1400285365, 913068235, 175530180);
    var k8 := 2 * k7;
    Doubled(k8, 175530180, 14347417, 706642601);
    var k9 := 2 * k8;
    DoubledNext(k9, 706642601, 232525060, 1680351381, 13151, 108218770);
    var k10 := 2 * k9 + 1;
    Doubled(k10, 108218770, 5453500, 111398400);
    var k11 := 2 * k10;
    assert k11 == k;
  }

  lemma PowerThirtyFirst(n: nat)
    requires 31 * n + 1 == M
    ensures Power(n) == 16384
  {
    var k0 := n / 32768;
    PowerThirtyFirstStart(k0);
    Doubled(k0, 111398400, 5778671, 2048666863);
    var k1 := 2 * k0;
    Doubled(k1, 2048666863, 1954397148, 480822013);
    var k2 := 2 * k1;
    Doubled(k2, 480822013, 107656143, 1593778648);
    var k3 := 2 * k2;
    DoubledNext(k3, 1593778648, 1182840382, 1464474750, 11461, 1117044983);
    var k4 := 2 * k3 + 1;
    Doubled(k4, 1117044983, 581047262, 766345775);
    var k5 := 2 * k4;
    Doubled(k5, 766345775, 273476283, 1275506524);
    var k6 := 2 * k5;
    Doubled(k6, 1275506524, 757592214, 2107038118);
    var k7 := 2 * k6;
    Doubled(k7, 2107038118, 2067354336, 1590438532);
    var k8 := 2 * k7;
    DoubledNext(k8, 1590438532, 1177887769, 2141501481, 16760, 389467447);
    var k9 := 2 * k8 + 1;
    Doubled(k9, 389467447, 70633782, 501934855);
    var k10 := 2 * k9;
    Doubled(k10, 501934855, 117318052, 495975381);
    var k11 := 2 * k10;
    Doubled(k11, 495975381, 114548755, 411385676);
    var k12 := 2 * k11;
    Doubled(k12, 411385676, 78807666, 424739074);
    var k13 := 2 * k12;
    DoubledNext(k13, 424739074, 84006824, 205970348, 1611, 2147483519);
    var k14 := 2 * k13 + 1;
    Doubled(k14, 2147483519, 2147483391, 16384);
    var k15 := 2 * k14;
    assert k15 == n;
  }

  lemma PowerPart151Start(k: nat)
    requires 151 * (32768 * k + 434) + 1 == M
    ensures Power(k) == 2119315080
  {
    var k0: nat := 1;
    DoubledNext(k0, 16807, 0, 282475249, 2210, 1622650073);
    var k1 := 2 * k0 + 1;
    Doubled(k1, 1622650073, 1226083031, 470211272);
    var k2 := 2 * k1;
    DoubledNext(k2, 470211272, 102957077, 1115438165, 8729, 1784484492);
    var k3 := 2 * k2 + 1;
    DoubledNext(k3, 1784484492, 1482844773, 1131570933, 8856, 197493099);
    var k4 := 2 * k3 + 1;
    Doubled(k4, 197493099, 18162431, 590357944);
    var k5 := 2 * k4;
    Doubled(k5, 590357944, 162293437, 70982397);
    var k6 := 2 * k5;
    DoubledNext(k6, 70982397, 2346234, 1536830211, 12027, 1719533808);
    var k7 := 2 * k6 + 1;
    Doubled(k7, 1719533808, 1376865672, 2119315080);
    var k8 := 2 * k7;
    assert k8 == k;
  }

  lemma PowerPart151(n: nat)
    requires 151 * n + 1 == M
    ensures Power(n) == 1013763951
  {
    var k0 := n / 32768;
    PowerPart151Start(k0);
    Doubled(k0, 2119315080, 2091516000, 876554400);
    var k1 := 2 * k0;
    Doubled(k1, 876554400, 357789740, 444978220);
    var k2 := 2 * k1;
    Doubled(k2, 444978220, 92203550, 454021550);
    var k3 := 2 * k2;
    Doubled(k3, 454021550, 95989353, 2010792109);
    var k4 := 2 * k3;
    Doubled(k4, 2010792109, 1882801254, 2100574543);
    var k5 := 2 * k4;
    Doubled(k5, 2100574543, 2054690109, 1969511326);
    var k6 := 2 * k5;
    DoubledNext(k6, 1969511326, 1806288429, 199457713, 1561, 63809424);
    var k7 := 2 * k6 + 1;
    DoubledNext(k7, 63809424, 1896006, 711597894, 5569, 489374315);
    var k8 := 2 * k7 + 1;
    Doubled(k8, 489374315, 111519927, 634585456);
    var k9 := 2 * k8;
    DoubledNext(k9, 634585456, 187521195, 1238329771, 9691, 1344438120);
    var k10 := 2 * k9 + 1;
    DoubledNext(k10, 1344438120, 841689230, 1228112590, 9611, 1422968813);
    var k11 := 2 * k10 + 1;
    Doubled(k11, 1422968813, 942889714, 1031122011);
    var k12 := 2 * k11;
    Doubled(k12, 1031122011, 495096948, 2059074765);
    var k13 := 2 * k12;
    DoubledNext(k13, 2059074765, 1974305552, 758497081, 5936, 597511775);
    var k14 := 2 * k13 + 1;
    Doubled(k14, 597511775, 166250542, 1013763951);
    var k15 := 2 * k14;
    assert k15 == n;
  }

  lemma PowerPart331Start(k: nat)
    requires 331 * (32768 * k + 32570) + 1 == M
    ensures Power(k) == 2043046042
  {
    var k0: nat := 1;
    DoubledNext(k0, 16807, 0, 282475249, 2210, 1622650073);
    var k1 := 2 * k0 + 1;
    Doubled(k1, 1622650073, 1226083031, 470211272);
    var k2 := 2 * k1;
    Doubled(k2, 470211272, 102957077, 1115438165);
    var k3 := 2 * k2;
    Doubled(k3, 1115438165, 579376844, 1998097157);
    var k4 := 2 * k3;
    DoubledNext(k4, 1998097157, 1859102514, 1899894091, 14869, 585640194);
    var k5 := 2 * k4 + 1;
    Doubled(k5, 585640194, 159709917, 1807130337);
    var k6 := 2 * k5;
    DoubledNext(k6, 1807130337, 1520719405, 992663534, 7768, 2043046042);
    var k7 := 2 * k6 + 1;
    assert k7 == k;
  }

  lemma PowerPart331(n: nat)
    requires 331 * n + 1 == M
    ensures Power(n) == 759513457
  {
    var k0 := n / 32768;
    PowerPart331Start(k0);
    DoubledNext(k0, 2043046042, 1943687504, 13618676, 106, 1255820950);
    var k1 := 2 * k0 + 1;
    DoubledNext(k1, 1255820950, 734388017, 1398644501, 10946, 662128245);
    var k2 := 2 * k1 + 1;
    DoubledNext(k2, 662128245, 204152340, 1179996045, 9235, 182048270);
    var k3 := 2 * k2 + 1;
    DoubledNext(k3, 182048270, 15432747, 799204591, 6254, 1868832599);
    var k4 := 2 * k3 + 1;
    DoubledNext(k4, 1868832599, 1626338476, 1388192829, 10864, 1094535995);
    var k5 := 2 * k4 + 1;
    DoubledNext(k5, 1094535995, 557866434, 125435227, 981, 1508402482);
    var k6 := 2 * k5 + 1;
    DoubledNext(k6, 1508402482, 1059508905, 365383789, 2859, 1349594950);
    var k7 := 2 * k6 + 1;
    Doubled(k7, 1349594950, 848158509, 924100177);
    var k8 := 2 * k7;
    Doubled(k8, 924100177, 397656642, 1315497955);
    var k9 := 2 * k8;
    DoubledNext(k9, 1315497955, 805843095, 1048814560, 8208, 880535344);
    var k10 := 2 * k9 + 1;
    DoubledNext(k10, 880535344, 361046983, 242011335, 1894, 150479927);
    var k11 := 2 * k10 + 1;
    DoubledNext(k11, 150479927, 10544531, 542140772, 4242, 2134324430);
    var k12 := 2 * k11 + 1;
    Doubled(k12, 2134324430, 2121245849, 500693597);
    var k13 := 2 * k12;
    DoubledNext(k13, 500693597, 116738527, 369430440, 2891, 642181603);
    var k14 := 2 * k13 + 1;
    Doubled(k14, 642181603, 192037416, 759513457);
    var k15 := 2 * k14;
    assert k15 == n;
  }

  lemma PowerWhole(n: nat)
    requires n + 1 == M
    ensures Power(n) == 1
  {
    var half := n / 2;
    PowerHalf(half);
    Doubled(half, M - 1, M - 2, 1);
    assert 2 * half == n;
  }

  // ----- The order of 16807

  predicate Divides(d: nat, n: nat)
    requires d > 0
  {
    n % d == 0
  }

  lemma DividesProduct(d: nat, q: nat)
    requires d > 0
    ensures Divides(d, d * q) && d * q / d == q
  {
  }

  lemma {:induction false} PowerMultiple(d: nat, q: nat)
    requires Power(d) == 1
    ensures Power(d * q) == 1
    decreases q
  {
    if q > 0 {
      PowerMultiple(d, q - 1);
      assert d * q == d * (q - 1) + d;
      PowerAdd(d * (q - 1), d);
    } else {
      assert d * q == 0;
    }
  }

  lemma PowerRemainder(d: nat, n: nat)
    requires d > 0 && Power(d) == 1 && Power(n) == 1
    ensures Power(n % d) == 1
  {
    PowerMultiple(d, n / d);
    assert d * (n / d) + n % d == n;
    PowerAdd(d * (n / d), n % d);
    IterateIsSeed(1, n % d);
  }

  /** Two exponents that give 1 have a common divisor that gives 1. */
  lemma {:induction false} CommonPeriod(a: nat, b: nat) returns (g: nat)
    requires a > 0 && Power(a) == 1 && Power(b) == 1
    ensures 0 < g <= a && Power(g) == 1 && Divides(g, a) && Divides(g, b)
    decreases a
  {
    if b % a == 0 {
      g := a;
    } else {
      PowerRemainder(a, b);
      g := CommonPeriod(b % a, a);
      DividesSum(g, a, b / a, b % a);
      assert b == a * (b / a) + b % a;
    }
  }

  lemma DividesSum(g: nat, a: nat, q: nat, r: nat)
    requires g > 0 && Divides(g, a) && Divides(g, r)
    ensures Divides(g, a * q + r)
  {
    assert a == g * (a / g) && r == g * (r / g);
    assert a * q + r == g * (a / g * q + r / g);
    DividesProduct(g, a / g * q + r / g);
  }

  // ----- The prime factors of 2^31-2

  ghost predicate IsPrime(p: nat) {
    p > 1 && forall x: nat, y: nat :: x * y == p ==> x == 1 || y == 1
  }

  lemma {:induction false} Bezout(a: nat, b: nat) returns (g: nat, u: int, v: int)
    requires a > 0
    ensures 0 < g && Divides(g, a) && Divides(g, b) && u * a + v * b == g
    decreases a
  {
    if b % a == 0 {
      g, u, v := a, 1, 0;
    } else {
      var u', v';
      g, u', v' := Bezout(b % a, a);
      DividesSum(g, a, b / a, b % a);
      assert b == a * (b / a) + b % a;
      u, v := v' - u' * (b / a), u';
      assert u' * (b % a) == u' * b - u' * (b / a) * a;
    }
  }

  lemma PrimeDivisor(g: nat, p: nat)
    requires g > 0 && IsPrime(p) && Divides(g, p)
    ensures g == 1 || g == p
  {
    assert g * (p / g) == p;
  }

  lemma BezoutMultiple(m: nat, p: nat, k: nat, u: int, v: int, c: nat)
    requires u * m + v * p == 1 && p * k == m * c
    ensures k == m * (u * k + v * c)
  {
    assert k == (u * m + v * p) * k;
    assert (u * m + v * p) * k == u * m * k + v * (p * k);
    assert v * (p * k) == v * (m * c);
    assert m * (u * k + v * c) == u * m * k + v * (m * c);
  }

  lemma NegativeProduct(m: nat, c: int)
    ensures m > 0 && c < 0 ==> m * c < 0
  {
  }

  /** A prime that does not divide `m` can be cancelled. */
  lemma Cancel(m: nat, p: nat, k: nat)
    requires m > 0 && IsPrime(p) && !Divides(p, m) && Divides(m, p * k)
    ensures Divides(m, k)
  {
    var g, u, v := Bezout(m, p);
    PrimeDivisor(g, p);
    var c := p * k / m;
    BezoutMultiple(m, p, k, u, v, c);
    NegativeProduct(m, u * k + v * c);
    DividesProduct(m, u * k + v * c);
  }

  /** A number with a product of two factors has one that is not larger than a root. */
  ghost predicate NoFactorUpTo(p: nat, bound: nat) {
    forall x: nat :: 1 < x <= bound ==> p % x != 0
  }

  lemma PrimeByTrial(p: nat, bound: nat)
    requires p > 1 && NoFactorUpTo(p, bound) && p < (bound + 1) * (bound + 1)
    ensures IsPrime(p)
  {
    forall x: nat, y: nat | x * y == p
      ensures x == 1 || y == 1
    {
      Factors(x, y, bound);
      DividesFactors(x, y);
    }
  }

  lemma Factors(x: nat, y: nat, bound: nat)
    requires x * y < (bound + 1) * (bound + 1)
    ensures x <= bound || y <= bound
  {
    if x > bound && y > bound {
      LargeProduct(x, y, bound + 1);
    }
  }

  lemma LargeProduct(x: nat, y: nat, b: nat)
    requires x >= b && y >= b
    ensures x * y >= b * b
  {
    assert x * y == b * b + (x - b) * y + b * (y - b);
  }

  lemma DividesFactors(x: nat, y: nat)
    requires x * y > 0
    ensures x * y % x == 0 && x * y % y == 0
  {
    DividesProduct(x, y);
    DividesProduct(y, x);
    assert x * y == y * x;
  }

  lemma FactorsArePrime()
    ensures IsPrime(2) && IsPrime(3) && IsPrime(7) && IsPrime(11) && IsPrime(31) && IsPrime(151) && IsPrime(331)
  {
    PrimeByTrial(2, 1);
    PrimeByTrial(3, 1);
    PrimeByTrial(7, 2);
    PrimeByTrial(11, 3);
    PrimeByTrial(31, 5);
    PrimeByTrial(151, 12);
    LargestFactorIsPrime();
  }

  lemma LargestFactorIsPrime()
    ensures IsPrime(331)
  {
    PrimeByTrial(331, 18);
  }

  predicate IsFactor(p: nat) {
    p == 2 || p == 3 || p == 7 || p == 11 || p == 31 || p == 151 || p == 331
  }

  /** 2^31-2 from its prime factors; a divisor above 1 has one of them. */
  lemma PrimeFactor(m: nat) returns (p: nat)
    requires m > 1 && Divides(m, 2 * (3 * (3 * (7 * (11 * (31 * (151 * 331)))))))
    ensures IsFactor(p) && Divides(p, m)
  {
    if Divides(2, m) { return 2; }
    if Divides(3, m) { return 3; }
    if Divides(7, m) { return 7; }
    if Divides(11, m) { return 11; }
    if Divides(31, m) { return 31; }
    if Divides(151, m) { return 151; }
    p := 331;
    LastFactor(m);
  }

  lemma LastFactor(m: nat)
    requires m > 1 && Divides(m, 2 * (3 * (3 * (7 * (11 * (31 * (151 * 331)))))))
    requires !Divides(2, m) && !Divides(3, m) && !Divides(7, m) && !Divides(11, m) && !Divides(31, m) && !Divides(151, m)
    ensures m == 331
  {
    FactorsArePrime();
    Cancel(m, 2, 3 * (3 * (7 * (11 * (31 * (151 * 331))))));
    Cancel(m, 3, 3 * (7 * (11 * (31 * (151 * 331)))));
    Cancel(m, 3, 7 * (11 * (31 * (151 * 331))));
    Cancel(m, 7, 11 * (31 * (151 * 331)));
    Cancel(m, 11, 31 * (151 * 331));
    Cancel(m, 31, 151 * 331);
    Cancel(m, 151, 331);
    PrimeDivisor(m, 331);
  }

  /** None of the largest divisors of 2^31-2 is a period. */
  lemma NotAPeriod(n: nat, p: nat)
    requires IsFactor(p) && p * n + 1 == M
    ensures Power(n) != 1
  {
    if p == 2 {
      PowerHalf(n);
    } else if p == 3 {
      PowerThird(n);
    } else if p == 7 {
      PowerSeventh(n);
    } else if p == 11 {
      PowerEleventh(n);
    } else if p == 31 {
      PowerThirtyFirst(n);
    } else if p == 151 {
      PowerPart151(n);
    } else {
      PowerPart331(n);
    }
  }

  /** A period that divides 2^31-2 but is shorter divides one of the largest divisors. */
  lemma ShortDivisor(g: nat, n: nat)
    requires n + 1 == M && 0 < g < n && Divides(g, n)
    ensures Power(g) != 1
  {
    var m := n / g;
    assert g * m == n;
    LongerThanOne(g, m);
    DividesFactors(g, m);
    var p := PrimeFactor(m);
    var k := g * (m / p);
    assert p * (m / p) == m;
    Regroup(p, m / p, g);
    NotAPeriod(k, p);
    if Power(g) == 1 {
      PowerMultiple(g, m / p);
    }
  }

  lemma LongerThanOne(g: nat, m: nat)
    requires g < g * m
    ensures m > 1
  {
    assert m == 0 ==> g * m == 0;
  }

  lemma Regroup(p: nat, c: nat, g: nat)
    ensures g * (p * c) == p * (g * c)
  {
  }

  /** The seed 1 does not come back before all steps of the cycle are made. */
  lemma NoShorterPeriod(e: nat, n: nat)
    requires n + 1 == M && 0 < e < n
    ensures Power(e) != 1
  {
    if Power(e) == 1 {
      PowerWhole(n);
      var g := CommonPeriod(e, n);
      ShortDivisor(g, n);
    }
  }

  // ----- The cycle

  lemma {:induction false} IterateInjective(a: nat, b: nat, k: nat)
    requires IsSeed(a) && IsSeed(b) && Iterate(a, k) == Iterate(b, k)
    ensures a == b
  {
    if k > 0 {
      IterateIsSeed(a, k - 1);
      IterateIsSeed(b, k - 1);
      Injective(Iterate(a, k - 1), Iterate(b, k - 1));
      IterateInjective(a, b, k - 1);
    }
  }

  /** No seed comes back before all steps of the cycle are made. */
  lemma PowersDiffer(i: nat, j: nat, n: nat)
    requires n + 1 == M && i < j < n
    ensures Power(i) != Power(j)
  {
    NoShorterPeriod(j - i, n);
    if Power(i) == Power(j) {
      IterateAdd(1, j - i, i);
      IterateIsSeed(1, j - i);
      IterateInjective(1, Power(j - i), i);
    }
  }

  ghost function FirstPowers(k: nat): set<nat> {
    if k == 0 then {} else FirstPowers(k - 1) + {Power(k - 1)}
  }

  lemma {:induction false} InFirstPowers(k: nat, x: nat)
    ensures x in FirstPowers(k) <==> exists i :: 0 <= i < k && Power(i) == x
  {
    if k > 0 {
      InFirstPowers(k - 1, x);
    }
  }

  lemma {:induction false} FirstPowersCount(k: nat, n: nat)
    requires n + 1 == M && k <= n
    ensures |FirstPowers(k)| == k
  {
    if k > 0 {
      FirstPowersCount(k - 1, n);
      InFirstPowers(k - 1, Power(k - 1));
      forall i | 0 <= i < k - 1
        ensures Power(i) != Power(k - 1)
      {
        PowersDiffer(i, k - 1, n);
      }
    }
  }

  ghost function Seeds(n: nat): set<nat> {
    if n == 0 then {} else Seeds(n - 1) + {n}
  }

  lemma {:induction false} SeedsCount(n: nat)
    ensures |Seeds(n)| == n
    ensures forall x :: x in Seeds(n) <==> 0 < x <= n
  {
    if n > 0 {
      SeedsCount(n - 1);
    }
  }

  lemma SameSize<T>(a: set<T>, b: set<T>)
    requires a <= b && |a| == |b|
    ensures a == b
  {
    assert |b - a| == 0;
  }

  /** Every seed is a power of 16807 with an exponent below 2^31-2. */
  lemma EverySeedIsAPower(seed: nat, n: nat) returns (k: nat)
    requires n + 1 == M && IsSeed(seed)
    ensures k < n && Power(k) == seed
  {
    FirstPowersCount(n, n);
    SeedsCount(n);
    forall x | x in FirstPowers(n)
      ensures x in Seeds(n)
    {
      InFirstPowers(n, x);
      var i :| 0 <= i < n && Power(i) == x;
      IterateIsSeed(1, i);
    }
    SameSize(FirstPowers(n), Seeds(n));
    InFirstPowers(n, seed);
    k :| 0 <= k < n && Power(k) == seed;
  }

  /** From any seed the generator comes to every seed in fewer than 2^31-2 steps. */
  lemma FullCycle(seed: nat, other: nat, n: nat) returns (k: nat)
    requires n + 1 == M && IsSeed(seed) && IsSeed(other)
    ensures k < n && Iterate(seed, k) == other
  {
    var i := EverySeedIsAPower(seed, n);
    var j := EverySeedIsAPower(other, n);
    if i <= j {
      k := j - i;
      IterateAdd(1, i, k);
    } else {
      k := n - i + j;
      IterateAdd(1, i, k);
      PowerWhole(n);
      IterateAdd(1, n, j);
    }
  }
}
