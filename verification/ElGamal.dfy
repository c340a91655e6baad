// Twisted ElGamal encryption of amounts, and what the group operations do to the encrypted amount.
// The second generator `H` of the commitments is a parameter: everything holds for every `H`.
module ElGamal {
  import opened Wrappers
  import opened Group

  // The commitment is amount * G + opening * H, the handle opening * P for the public key P.
  datatype Ciphertext = Ciphertext(commitment: Point, handle: Point)

  // One commitment with one handle per recipient.
  datatype Grouped = Grouped(commitment: Point, handles: seq<Point>)

  datatype Keypair = Keypair(secret: int, pub: Point)

  const ZERO := Ciphertext(0, 0)

  // Decryption searches for the amount's discrete logarithm, up to here.
  const DECRYPT_LIMIT := 0x1_0000_0000

  predicate ValidKeys(H: Point, keys: Keypair) {
    Mul(keys.secret, keys.pub) == H
  }

  function Commit(H: Point, amount: int, opening: int): Point {
    Add(Mul(amount, G), Mul(opening, H))
  }

  function Encrypt(H: Point, pub: Point, amount: int, opening: int): Ciphertext {
    Ciphertext(Commit(H, amount, opening), Mul(opening, pub))
  }

  function GroupedEncrypt(H: Point, pubs: seq<Point>, amount: int, opening: int): Grouped {
    Grouped(Commit(H, amount, opening), seq(|pubs|, i requires 0 <= i < |pubs| => Mul(opening, pubs[i])))
  }

  // The encrypted amount, as a residue: the x with x * G == commitment - secret * handle.
  function Dec(secret: int, c: Ciphertext): Point {
    Sub(c.commitment, Mul(secret, c.handle))
  }

  function Decrypt(secret: int, c: Ciphertext): Option<nat> {
    if Dec(secret, c) < DECRYPT_LIMIT then Some(Dec(secret, c)) else None
  }

  // ---- operations on ciphertexts ----

  function Subtract(left: Ciphertext, right: Ciphertext): Ciphertext {
    Ciphertext(Sub(left.commitment, right.commitment), Sub(left.handle, right.handle))
  }

  // lo + scale * hi
  function Combine(lo: Ciphertext, hi: Ciphertext, scale: nat): Ciphertext {
    Ciphertext(Add(lo.commitment, Mul(scale, hi.commitment)), Add(lo.handle, Mul(scale, hi.handle)))
  }

  function SubtractLoHi(left: Ciphertext, lo: Ciphertext, hi: Ciphertext, scale: nat): Ciphertext {
    Subtract(left, Combine(lo, hi, scale))
  }

  function SubtractAmount(c: Ciphertext, amount: int): Ciphertext {
    Ciphertext(Sub(c.commitment, Mul(amount, G)), c.handle)
  }

  // What the token program does when it credits an account.
  function Plus(a: Ciphertext, b: Ciphertext): Ciphertext {
    Combine(a, b, 1)
  }

  function PlusAmount(c: Ciphertext, amount: nat): Ciphertext {
    SubtractAmount(c, 0 - amount)
  }

  // ---- the encrypted amounts ----

  lemma DecCong(s: int, c: Ciphertext)
    ensures Cong(Dec(s, c), c.commitment - s * c.handle)
  {
    hide Cong, Add, Sub, Mul;
    OpsCong(s, c.handle, c.handle);
    OpsCong(s, c.commitment, Mul(s, c.handle));
    CongRefl(c.commitment);
    CongAdd(c.commitment, c.commitment, Mul(s, c.handle), s * c.handle);
    CongTrans(Dec(s, c), c.commitment - Mul(s, c.handle), c.commitment - s * c.handle);
  }

  // Decryption is linear: what is a + k * b on the points is a + k * b on the amounts.
  lemma DecLinear(s: int, r: Ciphertext, a: Ciphertext, k: int, b: Ciphertext)
    requires Cong(r.commitment, a.commitment + k * b.commitment)
    requires Cong(r.handle, a.handle + k * b.handle)
    ensures Cong(Dec(s, r), Dec(s, a) + k * Dec(s, b))
  {
    hide Cong, Dec;
    var x, y := a.commitment - s * a.handle, b.commitment - s * b.handle;
    DecCong(s, r);
    DecCong(s, a);
    DecCong(s, b);
    CongMul(s, r.handle, a.handle + k * b.handle);
    CongAdd(r.commitment, a.commitment + k * b.commitment, s * r.handle, s * (a.handle + k * b.handle));
    assert (a.commitment + k * b.commitment) - s * (a.handle + k * b.handle) == x + k * y by {
      assert s * (a.handle + k * b.handle) == s * a.handle + s * (k * b.handle);
      assert s * (k * b.handle) == k * (s * b.handle);
      assert k * y == k * b.commitment - k * (s * b.handle);
    }
    CongTrans(Dec(s, r), r.commitment - s * r.handle, x + k * y);
    CongMul(k, Dec(s, b), y);
    CongAdd(Dec(s, a), x, k * Dec(s, b), k * y);
    CongSym(Dec(s, a) + k * Dec(s, b), x + k * y);
    CongTrans(Dec(s, r), x + k * y, Dec(s, a) + k * Dec(s, b));
  }

  // The handle times the secret key is the blinding part of the commitment.
  lemma HandleBlinds(H: Point, keys: Keypair, opening: int)
    requires ValidKeys(H, keys)
    ensures Cong(keys.secret * Mul(opening, keys.pub), opening * H)
  {
    hide Cong, Mul;
    var s, p := keys.secret, keys.pub;
    OpsCong(opening, p, p);
    CongMul(s, Mul(opening, p), opening * p);
    OpsCong(s, p, p);
    CongMul(opening, H, s * p);
    assert s * (opening * p) == opening * (s * p);
    CongSym(opening * H, opening * (s * p));
    CongTrans(s * Mul(opening, p), s * (opening * p), opening * H);
  }

  lemma CommitCong(H: Point, amount: int, opening: int)
    ensures Cong(Commit(H, amount, opening), amount + opening * H)
  {
    hide Cong, Mul, Add;
    OpsCong(amount, G, G);
    OpsCong(opening, H, H);
    CongAdd(Mul(amount, G), amount, Mul(opening, H), opening * H);
    OpsCong(0, Mul(amount, G), Mul(opening, H));
    CongTrans(Commit(H, amount, opening), Mul(amount, G) + Mul(opening, H), amount + opening * H);
  }

  // The key holder reads what was encrypted to its public key.
  lemma DecEncrypt(H: Point, keys: Keypair, amount: int, opening: int)
    requires ValidKeys(H, keys)
    ensures Dec(keys.secret, Encrypt(H, keys.pub, amount, opening)) == amount % Q
  {
    hide Cong, Mul, Add, Dec, Commit;
    var c := Encrypt(H, keys.pub, amount, opening);
    var s := keys.secret;
    DecCong(s, c);
    HandleBlinds(H, keys, opening);
    CommitCong(H, amount, opening);
    CongAdd(c.commitment, amount + opening * H, s * c.handle, opening * H);
    CongTrans(Dec(s, c), c.commitment - s * c.handle, amount);
    CongResidue(Dec(s, c), amount);
  }

  lemma DecSubtract(s: int, left: Ciphertext, right: Ciphertext)
    ensures Dec(s, Subtract(left, right)) == Sub(Dec(s, left), Dec(s, right))
  {
    hide Cong, Sub, Dec;
    OpsCong(0, left.commitment, right.commitment);
    OpsCong(0, left.handle, right.handle);
    DecLinear(s, Subtract(left, right), left, -1, right);
    OpsCong(0, Dec(s, left), Dec(s, right));
    CongUnique(Dec(s, Subtract(left, right)), Sub(Dec(s, left), Dec(s, right)), Dec(s, left) - Dec(s, right));
  }

  lemma CombineCong(a: Point, b: Point, k: int)
    ensures Cong(Add(a, Mul(k, b)), a + k * b)
  {
    hide Cong, Add, Mul;
    OpsCong(k, b, b);
    OpsCong(k, a, Mul(k, b));
    CongRefl(a);
    CongAdd(a, a, Mul(k, b), k * b);
    CongTrans(Add(a, Mul(k, b)), a + Mul(k, b), a + k * b);
  }

  lemma DecCombine(s: int, lo: Ciphertext, hi: Ciphertext, scale: nat)
    ensures Dec(s, Combine(lo, hi, scale)) == Add(Dec(s, lo), Mul(scale, Dec(s, hi)))
    ensures Dec(s, Combine(lo, hi, scale)) == (Dec(s, lo) + scale * Dec(s, hi)) % Q
  {
    hide Cong, Add, Mul, Dec;
    CombineCong(lo.commitment, hi.commitment, scale);
    CombineCong(lo.handle, hi.handle, scale);
    DecLinear(s, Combine(lo, hi, scale), lo, scale, hi);
    CombineCong(Dec(s, lo), Dec(s, hi), scale);
    var sum := Dec(s, lo) + scale * Dec(s, hi);
    CongUnique(Dec(s, Combine(lo, hi, scale)), Add(Dec(s, lo), Mul(scale, Dec(s, hi))), sum);
    CongResidue(Dec(s, Combine(lo, hi, scale)), sum);
  }

  lemma DecSubtractAmount(s: int, c: Ciphertext, amount: int)
    ensures Dec(s, SubtractAmount(c, amount)) == (Dec(s, c) - amount) % Q
  {
    hide Cong, Sub, Mul, Dec;
    var r, one := SubtractAmount(c, amount), Ciphertext(1, 0);
    DecOne(s);
    OpsCong(amount, G, G);
    OpsCong(amount, c.commitment, Mul(amount, G));
    CongRefl(c.commitment);
    CongAdd(c.commitment, c.commitment, Mul(amount, G), amount);
    CongTrans(r.commitment, c.commitment - Mul(amount, G), c.commitment - amount);
    CongRefl(c.handle);
    DecLinear(s, r, c, -amount, one);
    CongResidue(Dec(s, r), Dec(s, c) - amount);
  }

  lemma DecOne(s: int)
    ensures Dec(s, Ciphertext(1, 0)) == 1
  {
  }

  lemma DecSubtractLoHi(s: int, left: Ciphertext, lo: Ciphertext, hi: Ciphertext, scale: nat)
    ensures Dec(s, SubtractLoHi(left, lo, hi, scale)) == (Dec(s, left) - (Dec(s, lo) + scale * Dec(s, hi))) % Q
  {
    hide Dec, Add, Mul, Combine, Subtract;
    var spent := Combine(lo, hi, scale);
    var t := scale * Dec(s, hi);
    DecCombine(s, lo, hi, scale);
    DecSubtract(s, left, spent);
    assert Dec(s, spent) == (Dec(s, lo) + t) % Q;
    SubReduced(Dec(s, left), Dec(s, lo) + t);
  }

  lemma SubReduced(a: int, b: int)
    ensures (a - b % Q) % Q == (a - b) % Q
  {
  }

  lemma DecPlus(s: int, a: Ciphertext, b: Ciphertext)
    requires Dec(s, a) + Dec(s, b) < Q
    ensures Dec(s, Plus(a, b)) == Dec(s, a) + Dec(s, b)
  {
    hide Dec, Add, Mul;
    DecCombine(s, a, b, 1);
  }

  lemma DecPlusAmount(s: int, c: Ciphertext, amount: nat)
    requires Dec(s, c) + amount < Q
    ensures Dec(s, PlusAmount(c, amount)) == Dec(s, c) + amount
  {
    hide Dec, Sub, Mul;
    DecSubtractAmount(s, c, 0 - amount);
  }
}
