/** The `{ url, alt? }` image record shared by the new-project form, the image
    uploader and the project-creation request. */
module Media {
  import opened Optional

  datatype ImageRef = ImageRef(url: string, alt: Option<string>)
}
