/** The image list editor (src/components/admin/ImageUploader.tsx): removing an
    image by position and appending a dropped batch once every upload of it
    has succeeded. The upload responses are inputs. */
module ImageUploader {
  import opened Optional
  import opened Media

  /** `images.filter((_, i) => i !== index)`, written as the filter it is. */
  function RemoveImage<T>(images: seq<T>, index: int): (r: seq<T>)
    ensures 0 <= index < |images| ==> r == images[..index] + images[index + 1..]
    ensures !(0 <= index < |images|) ==> r == images
  {
    if |images| == 0 then []
    else
      var last := |images| - 1;
      var kept := RemoveImage(images[..last], index);
      assert images[..last][..last] == images[..last];
      if last == index then kept else kept + [images[last]]
  }

  /** Removing position `i` and putting the image back there restores the list. */
  lemma RemoveThenReinsert<T>(images: seq<T>, index: int)
    requires 0 <= index < |images|
    ensures var r := RemoveImage(images, index);
            |r| == |images| - 1 && r[..index] + [images[index]] + r[index..] == images
  {
    SpliceBack(images, index, RemoveImage(images, index));
  }

  lemma SpliceBack<T>(images: seq<T>, index: int, r: seq<T>)
    requires 0 <= index < |images|
    requires r == images[..index] + images[index + 1..]
    ensures |r| == |images| - 1 && r[..index] + [images[index]] + r[index..] == images
  {
    var a, b := images[..index], images[index + 1..];
    assert r[..index] == a;
    assert r[index..] == b;
    assert a + [images[index]] + b == images;
  }

  /** What one `fetch("/api/upload")` produced: a response with its `ok` flag
      and the `url` of its JSON body, or a thrown error. */
  datatype FetchResult = Responded(ok: bool, url: string) | NetworkError

  predicate Succeeded(f: FetchResult) {
    f.Responded? && f.ok
  }

  /** `Promise.all` over the per-file uploads: every new image in file order, or
      nothing when any upload failed. */
  function NewImages(fileNames: seq<string>, results: seq<FetchResult>): (r: Option<seq<ImageRef>>)
    requires |fileNames| == |results|
    ensures r.Some? <==> forall i :: 0 <= i < |results| ==> Succeeded(results[i])
    ensures r.Some? ==> |r.value| == |fileNames|
    ensures r.Some? ==> forall i :: 0 <= i < |fileNames| ==> r.value[i] == ImageRef(results[i].url, Some(fileNames[i]))
  {
    if |fileNames| == 0 then Some([])
    else
      var rest := NewImages(fileNames[1..], results[1..]);
      assert forall i :: 1 <= i < |results| ==> results[i] == results[1..][i - 1];
      if !Succeeded(results[0]) || rest.None? then None
      else Some([ImageRef(results[0].url, Some(fileNames[0]))] + rest.value)
  }

  /** The image list after a drop, and whether the failure alert was shown. */
  datatype DropOutcome = DropOutcome(images: seq<ImageRef>, alerted: bool)

  /** `onDrop`: all or nothing. */
  function OnDrop(images: seq<ImageRef>, fileNames: seq<string>, results: seq<FetchResult>): (r: DropOutcome)
    requires |fileNames| == |results|
    ensures r.alerted <==> exists i :: 0 <= i < |results| && !Succeeded(results[i])
    ensures r.alerted ==> r.images == images
    ensures !r.alerted ==>
              && |r.images| == |images| + |fileNames|
              && r.images[..|images|] == images
              && forall i :: 0 <= i < |fileNames| ==>
                   r.images[|images| + i] == ImageRef(results[i].url, Some(fileNames[i]))
  {
    match NewImages(fileNames, results)
    case None => DropOutcome(images, true)
    case Some(added) => DropOutcome(images + added, false)
  }

  /** Dropping two batches one after the other gives the same list as dropping
      them together, when every upload succeeds. */
  lemma DropsCompose(images: seq<ImageRef>, names1: seq<string>, results1: seq<FetchResult>,
                     names2: seq<string>, results2: seq<FetchResult>)
    requires |names1| == |results1| && |names2| == |results2|
    requires forall i :: 0 <= i < |results1| ==> Succeeded(results1[i])
    requires forall i :: 0 <= i < |results2| ==> Succeeded(results2[i])
    ensures OnDrop(OnDrop(images, names1, results1).images, names2, results2)
            == OnDrop(images, names1 + names2, results1 + results2)
  {
    var both := OnDrop(images, names1 + names2, results1 + results2);
    assert !both.alerted by {
      forall i | 0 <= i < |results1 + results2|
        ensures Succeeded((results1 + results2)[i])
      {
        if i >= |results1| {
          assert (results1 + results2)[i] == results2[i - |results1|];
        }
      }
    }
    var first := OnDrop(images, names1, results1);
    var step := OnDrop(first.images, names2, results2);
    var n0, n1, n2 := |images|, |names1|, |names2|;
    assert |step.images| == |both.images| == n0 + n1 + n2;
    forall i | 0 <= i < n0 + n1 + n2
      ensures step.images[i] == both.images[i]
    {
      if i < n0 {
        assert step.images[i] == step.images[..n0 + n1][i] == first.images[i];
        assert first.images[i] == first.images[..n0][i] == images[i];
        assert both.images[i] == both.images[..n0][i];
      } else if i < n0 + n1 {
        assert step.images[i] == step.images[..n0 + n1][i] == first.images[i];
        assert (names1 + names2)[i - n0] == names1[i - n0];
        assert (results1 + results2)[i - n0] == results1[i - n0];
      } else {
        assert (names1 + names2)[i - n0] == names2[i - n0 - n1];
        assert (results1 + results2)[i - n0] == results2[i - n0 - n1];
      }
    }
  }
}
