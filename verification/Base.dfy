/** Error numbers and results shared by every component of the model. */
module Base {

  datatype Option<+T> = None | Some(value: T)

  /** The VFS error numbers that the modelled code can return. */
  datatype Errno =
    | EACCES | EBADF | EBUSY | EEXIST | EINVAL | EIO | EISDIR
    | ENOENT | ENOSPC | ENOTDIR | ENOTEMPTY | EXDEV

  datatype Result<+T> = Ok(value: T) | Err(errno: Errno)

  type byte = b: int | 0 <= b < 256

  const U64_MAX: nat := 0xFFFF_FFFF_FFFF_FFFF

  type u64 = n: nat | n <= U64_MAX

  /** The image of a set under a function that is injective on it has the same size. */
  lemma {:induction false} ImageSize<A(!new), B(!new)>(s: set<A>, f: A -> B, image: set<B>)
    requires forall x :: x in s ==> f(x) in image
    requires forall y :: y in image ==> exists x :: x in s && f(x) == y
    requires forall x, y :: x in s && y in s && f(x) == f(y) ==> x == y
    ensures |image| == |s|
  {
    if s == {} {
      assert image == {};
    } else {
      var x :| x in s;
      forall y | y in image - {f(x)} ensures exists z :: z in s - {x} && f(z) == y {
        var z :| z in s && f(z) == y;
        assert z in s - {x};
      }
      ImageSize(s - {x}, f, image - {f(x)});
    }
  }

  /** A subset is no larger than the set it is taken from. */
  lemma {:induction false} SubsetSize<A>(s: set<A>, t: set<A>)
    requires s <= t
    ensures |s| <= |t|
    ensures |s| == |t| ==> s == t
  {
    assert t == s + (t - s);
    assert |t| == |s| + |t - s|;
  }

  /** What adding or removing one element does to a set and its size. */
  lemma WithOne<A>(s: set<A>, x: A)
    ensures x in s ==> s + {x} == s && |s - {x}| == |s| - 1
    ensures x !in s ==> s - {x} == s && |s + {x}| == |s| + 1
  {
  }
}
