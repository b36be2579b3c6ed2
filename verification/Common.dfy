/** What every part of the model uses. */
module Common {

  /** The `char` of the C sources, as the unsigned value of its byte. */
  type Byte = b: int | 0 <= b < 256

  datatype Option<T> = None | Some(value: T)

  function Zeros(n: nat): seq<Byte> { seq(n, _ => 0) }

  lemma Associative<T>(x: seq<T>, y: seq<T>, z: seq<T>)
    ensures (x + y) + z == x + (y + z)
  {
  }
}
