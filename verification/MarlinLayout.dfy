/** The served 8-bit Marlin layout as overlay/glm_dense_fast.py reads it: logical (k, n) to packed word and byte, and
the columns of the two kinds of scales. */
module MarlinLayout {
  import opened Arith

  /** A byte of the packed buffer. */
  datatype Place = Place(word: nat, byte: nat)

  /** The kernel's index: a k16 row is 4 * PN words for PN = 64 * tiles columns; a tile of 64 columns has 256. */
  function PlaceOf(tiles: nat, k: nat, n: nat): (p: Place)
  {
    var kt, hk, tr, kb := k / 16, k / 8 % 2, k / 2 % 4, k % 2;
    var nt, w, hn, tc := n / 64, n / 16 % 4, n / 8 % 2, n % 8;
    Place(kt * (256 * tiles) + tr * 8 + (nt * 256 + tc * 32 + w * 2 + hn), hk + 2 * kb)
  }

  /** The element a byte reads back as, digit by digit. */
  function Source(tiles: nat, p: Place): (kn: (nat, nat))
    requires tiles > 0
  {
    var q := p.word / 256;
    (q / tiles * 16 + p.byte % 2 * 8 + p.word / 8 % 4 * 2 + p.byte / 2,
        q % tiles * 64 + p.word / 2 % 4 * 16 + p.word % 2 * 8 + p.word / 32 % 8)
  }

  lemma {:induction false} RowDigits(k: nat)
    ensures k == k / 16 * 16 + k / 8 % 2 * 8 + k / 2 % 4 * 2 + k % 2
  {
    Digits3(k, 2, 4, 2);
  }

  lemma {:induction false} ColumnDigits(n: nat)
    ensures n == n / 64 * 64 + n / 16 % 4 * 16 + n / 8 % 2 * 8 + n % 8
  {
    Digits3(n, 8, 2, 4);
  }

  lemma {:induction false} RowOfDigits(kt: nat, hk: nat, tr: nat, kb: nat)
    requires hk < 2 && tr < 4 && kb < 2
    ensures var k := kt * 16 + hk * 8 + tr * 2 + kb; k / 16 == kt && k / 8 % 2 == hk && k / 2 % 4 == tr && k % 2 == kb
  {
    Compose3(kt, hk, tr, kb, 2, 4, 2);
  }

  lemma {:induction false} ColumnOfDigits(nt: nat, w: nat, hn: nat, tc: nat)
    requires w < 4 && hn < 2 && tc < 8
    ensures var n := nt * 64 + w * 16 + hn * 8 + tc; n / 64 == nt && n / 16 % 4 == w && n / 8 % 2 == hn && n % 8 == tc
  {
    Compose3(nt, w, hn, tc, 8, 2, 4);
  }

  /** The word of tile q with digits tc, tr, w, hn. */
  lemma {:induction false} WordOfDigits(q: nat, tc: nat, tr: nat, w: nat, hn: nat)
    requires tc < 8 && tr < 4 && w < 4 && hn < 2
    ensures var x := q * 256 + tc * 32 + tr * 8 + w * 2 + hn;
            x / 256 == q && x / 32 % 8 == tc && x / 8 % 4 == tr && x / 2 % 4 == w && x % 2 == hn
  {
    Compose3(q * 8 + tc, tr, w, hn, 2, 4, 4);
    var x := q * 256 + tc * 32 + tr * 8 + w * 2 + hn;
    assert x / 32 == q * 8 + tc;
    DivUnique(q * 8 + tc, q, tc, 8);
    DivDiv(x, 32, 8);
  }

  lemma {:induction false} WordDigits(x: nat)
    ensures x == x / 256 * 256 + x / 32 % 8 * 32 + x / 8 % 4 * 8 + x / 2 % 4 * 2 + x % 2
  {
    Digits3(x, 2, 4, 4);
    DivDiv(x, 32, 8);
    assert x / 32 == x / 32 / 8 * 8 + x / 32 % 8;
  }

  lemma {:induction false} ByteDigits(hk: nat, kb: nat)
    requires hk < 2 && kb < 2
    ensures (hk + 2 * kb) % 2 == hk && (hk + 2 * kb) / 2 == kb
  {
    DivUnique(hk + 2 * kb, kb, hk, 2);
  }

  /** A place is a tile and the digits inside it. */
  lemma PlaceIsTile(tiles: nat, kt: nat, nt: nat)
    ensures kt * (256 * tiles) + nt * 256 == (kt * tiles + nt) * 256
  {
    MulNested(kt, tiles, 256);
    MulSum(kt * tiles, nt, 256);
  }

  lemma TileUnique(tiles: nat, kt: nat, nt: nat)
    requires nt < tiles
    ensures (kt * tiles + nt) / tiles == kt && (kt * tiles + nt) % tiles == nt
  {
    DivUnique(kt * tiles + nt, kt, nt, tiles);
  }

  lemma TileBelow(x: nat, tiles: nat)
    requires x < 64 * tiles
    ensures x / 64 < tiles
  {
  }

  /** Reading back where (k, n) was put: no two elements share a byte. */
  lemma {:induction false} SourceOfPlace(tiles: nat, k: nat, n: nat)
    requires n < 64 * tiles
    ensures PlaceOf(tiles, k, n).byte < 4 && Source(tiles, PlaceOf(tiles, k, n)) == (k, n)
  {
    var kt, hk, tr, kb := k / 16, k / 8 % 2, k / 2 % 4, k % 2;
    var nt, w, hn, tc := n / 64, n / 16 % 4, n / 8 % 2, n % 8;
    RowDigits(k);
    ColumnDigits(n);
    TileBelow(n, tiles);
    PlaceIsTile(tiles, kt, nt);
    WordOfDigits(kt * tiles + nt, tc, tr, w, hn);
    TileUnique(tiles, kt, nt);
    ByteDigits(hk, kb);
  }

  /** The map stays inside the buffer of kTiles * 4 * PN words. */
  lemma {:induction false} PlaceInRange(tiles: nat, kTiles: nat, k: nat, n: nat)
    requires k < 16 * kTiles && n < 64 * tiles
    ensures PlaceOf(tiles, k, n).word < kTiles * (256 * tiles) && PlaceOf(tiles, k, n).byte < 4
  {
    var kt, nt := k / 16, n / 64;
    PlaceIsTile(tiles, kt, nt);
    TileBelow(n, tiles);
    TilesBelow(tiles, kTiles, kt, nt, k);
  }

  lemma TilesBelow(tiles: nat, kTiles: nat, kt: nat, nt: nat, k: nat)
    requires k < 16 * kTiles && kt == k / 16 && nt < tiles
    ensures (kt * tiles + nt) * 256 + 256 <= kTiles * (256 * tiles)
  {
    MulMonotone(tiles, kt + 1, kTiles);
    MulSum(kt, 1, tiles);
    MulNested(kTiles, tiles, 256);
  }

  /** Every byte of the buffer is the place of exactly the element it reads back as: the map is onto. */
  lemma {:induction false} PlaceOfSource(tiles: nat, kTiles: nat, p: Place)
    requires p.word < kTiles * (256 * tiles) && p.byte < 4
    ensures tiles > 0
    ensures var (k, n) := Source(tiles, p);
            k < 16 * kTiles && n < 64 * tiles && PlaceOf(tiles, k, n) == p
  {
    var q := TileOf(tiles, kTiles, p.word);
    RowOfDigits(q / tiles, p.byte % 2, p.word / 8 % 4, p.byte / 2);
    ColumnOfDigits(q % tiles, p.word / 2 % 4, p.word % 2, p.word / 32 % 8);
    PlaceIsTile(tiles, q / tiles, q % tiles);
    WordDigits(p.word);
  }

  lemma TileOf(tiles: nat, kTiles: nat, word: nat) returns (q: nat)
    requires word < kTiles * (256 * tiles)
    ensures tiles > 0 && q == word / 256 && q / tiles < kTiles && q == q / tiles * tiles + q % tiles
  {
    if tiles == 0 { assert false; }
    q := word / 256;
    MulNested(kTiles, tiles, 256);
    var t := q / tiles;
    assert q == t * tiles + q % tiles;
    if t >= kTiles { MulMonotone(tiles, kTiles, t); }
  }

  // ---------------------------------------------------------------------------------------------- scales

  /** The scale column of n: MX scales and block scales are interleaved differently. */
  function ScaleColumn(mx: bool, n: nat): (c: nat)
  {
    var nt, w, hn, tc := n / 64, n / 16 % 4, n / 8 % 2, n % 8;
    nt * 64 + 8 * tc + (if mx then 4 * (w / 2) + 2 * hn + w % 2 else 2 * w + hn)
  }

  function ScaleSource(mx: bool, c: nat): (n: nat)
  {
    var nt, tc, low := c / 64, c / 8 % 8, c % 8;
    if mx then nt * 64 + (2 * (low / 4) + low % 2) * 16 + low / 2 % 2 * 8 + tc
        else nt * 64 + low / 2 * 16 + low % 2 * 8 + tc
  }

  /** The three bits w, hn are shuffled without loss. */
  lemma {:induction false} Shuffle(w: nat, hn: nat)
    requires w < 4 && hn < 2
    ensures var low := 4 * (w / 2) + 2 * hn + w % 2; low < 8 && 2 * (low / 4) + low % 2 == w && low / 2 % 2 == hn
    ensures var low := 2 * w + hn; low < 8 && low / 2 == w && low % 2 == hn
  {
    if w == 0 || w == 1 {
    } else {
    }
  }

  lemma {:induction false} UnshuffleMx(low: nat)
    requires low < 8
    ensures var w, hn := 2 * (low / 4) + low % 2, low / 2 % 2; w < 4 && hn < 2 && 4 * (w / 2) + 2 * hn + w % 2 == low
  {
    if low < 4 {
    } else {
    }
  }

  lemma {:induction false} ColumnParts(nt: nat, tc: nat, low: nat)
    requires tc < 8 && low < 8
    ensures var c := nt * 64 + 8 * tc + low; c / 64 == nt && c / 8 % 8 == tc && c % 8 == low
  {
    var c := nt * 64 + 8 * tc + low;
    DivUnique(c, nt * 8 + tc, low, 8);
    DivUnique(nt * 8 + tc, nt, tc, 8);
    DivUnique(c, nt, 8 * tc + low, 64);
  }

  lemma {:induction false} PartsOfColumn(c: nat)
    ensures c == c / 64 * 64 + 8 * (c / 8 % 8) + c % 8
  {
    DivDiv(c, 8, 8);
    assert c / 8 == c / 8 / 8 * 8 + c / 8 % 8;
  }

  lemma {:induction false} ScaleForth(mx: bool, n: nat)
    ensures ScaleColumn(mx, n) / 64 == n / 64 && ScaleSource(mx, ScaleColumn(mx, n)) == n
  {
    var nt, w, hn, tc := n / 64, n / 16 % 4, n / 8 % 2, n % 8;
    ColumnDigits(n);
    Shuffle(w, hn);
    ColumnParts(nt, tc, if mx then 4 * (w / 2) + 2 * hn + w % 2 else 2 * w + hn);
  }

  lemma {:induction false} ScaleBack(mx: bool, c: nat)
    ensures ScaleSource(mx, c) / 64 == c / 64 && ScaleColumn(mx, ScaleSource(mx, c)) == c
  {
    var nt, tc, low := c / 64, c / 8 % 8, c % 8;
    PartsOfColumn(c);
    if mx {
      UnshuffleMx(low);
      BackFrom(mx, nt, 2 * (low / 4) + low % 2, low / 2 % 2, tc, low);
    } else {
      BackFrom(mx, nt, low / 2, low % 2, tc, low);
    }
  }

  lemma {:induction false} BackFrom(mx: bool, nt: nat, w: nat, hn: nat, tc: nat, low: nat)
    requires w < 4 && hn < 2 && tc < 8 && low == if mx then 4 * (w / 2) + 2 * hn + w % 2 else 2 * w + hn
    ensures var n := nt * 64 + w * 16 + hn * 8 + tc; n / 64 == nt && ScaleColumn(mx, n) == nt * 64 + 8 * tc + low
  {
    ColumnOfDigits(nt, w, hn, tc);
  }

  /** Both column maps permute [0, PN): they keep every tile of 64 and are undone by the other map on both sides. */
  lemma {:induction false} ScaleColumnsPermute(mx: bool, tiles: nat, n: nat)
    requires n < 64 * tiles
    ensures ScaleColumn(mx, n) < 64 * tiles && ScaleSource(mx, ScaleColumn(mx, n)) == n
    ensures ScaleSource(mx, n) < 64 * tiles && ScaleColumn(mx, ScaleSource(mx, n)) == n
  {
    hide ScaleColumn, ScaleSource;
    ScaleForth(mx, n);
    ScaleBack(mx, n);
  }
}
