/** The two content-type tables of the site: the one createPost uses for
    linked attachments and the one the misc-file upload stores objects with. */
module UploadTypes {
  import CreatePost
  import MiscFiles

  /** The extensions the misc-file upload accepts, without their dot */
  lemma UploadExtensionCases(ext: string)
    requires "." + ext in MiscFiles.AllowedExtensions
    ensures ext == "png" || ext == "jpg" || ext == "jpeg" || ext == "gif" || ext == "mp4" || ext == "mov" || ext == "mp3"
  {
    var d := "." + ext;
    assert d[1..] == ext;
  }

  lemma PngTypesAgree(ext: string)
    requires ext == "png"
    ensures CreatePost.ContentTypeFor(ext) == MiscFiles.ContentType("." + ext) == "image/png"
    ensures ext != "mov" && ext != "mp3"
  {
    assert "." + ext == ".png";
    assert ext[0] != 'm';
  }

  lemma JpgTypesAgree(ext: string)
    requires ext == "jpg"
    ensures CreatePost.ContentTypeFor(ext) == MiscFiles.ContentType("." + ext) == "image/jpeg"
    ensures ext != "mov" && ext != "mp3"
  {
    assert "." + ext == ".jpg";
    assert ext[0] != 'm';
  }

  lemma JpegTypesAgree(ext: string)
    requires ext == "jpeg"
    ensures CreatePost.ContentTypeFor(ext) == MiscFiles.ContentType("." + ext) == "image/jpeg"
    ensures ext != "mov" && ext != "mp3"
  {
    assert "." + ext == ".jpeg";
    assert ext[0] != 'm';
  }

  lemma GifTypesAgree(ext: string)
    requires ext == "gif"
    ensures CreatePost.ContentTypeFor(ext) == MiscFiles.ContentType("." + ext) == "image/gif"
    ensures ext != "mov" && ext != "mp3"
  {
    assert "." + ext == ".gif";
    assert ext[0] != 'm';
  }

  lemma Mp4TypesAgree(ext: string)
    requires ext == "mp4"
    ensures CreatePost.ContentTypeFor(ext) == MiscFiles.ContentType("." + ext) == "video/mp4"
    ensures ext != "mov" && ext != "mp3"
  {
    assert "." + ext == ".mp4";
    assert ext[2] == '4';
  }

  lemma MovTypesDiffer(ext: string)
    requires ext == "mov"
    ensures CreatePost.ContentTypeFor(ext) == "video/mov"
    ensures MiscFiles.ContentType("." + ext) == "video/quicktime"
    ensures CreatePost.ContentTypeFor(ext)[..6] == MiscFiles.ContentType("." + ext)[..6]
  {
    assert "." + ext == ".mov";
    assert "video/mov"[..6] == "video/quicktime"[..6];
  }

  lemma Mp3TypesDiffer(ext: string)
    requires ext == "mp3"
    ensures CreatePost.ContentTypeFor(ext) == "audio/mp3"
    ensures MiscFiles.ContentType("." + ext) == "audio/mpeg"
    ensures CreatePost.ContentTypeFor(ext)[..6] == MiscFiles.ContentType("." + ext)[..6]
  {
    assert "." + ext == ".mp3";
    assert "audio/mp3"[..6] == "audio/mpeg"[..6];
  }

  /** For every extension the misc-file upload accepts, createPost's table
      gives a type of the same family (image/, video/ or audio/), and the same
      type except for .mov and .mp3: the upload stores the registered
      video/quicktime and audio/mpeg, while createPost builds video/mov and
      audio/mp3 from the extension. */
  lemma ContentTypesAcrossUploads(ext: string)
    requires "." + ext in MiscFiles.AllowedExtensions
    ensures CreatePost.ContentTypeFor(ext)[..6] == MiscFiles.ContentType("." + ext)[..6]
    ensures CreatePost.ContentTypeFor(ext) == MiscFiles.ContentType("." + ext) <==> ext != "mov" && ext != "mp3"
  {
    UploadExtensionCases(ext);
    if ext == "png" {
      PngTypesAgree(ext);
    } else if ext == "jpg" {
      JpgTypesAgree(ext);
    } else if ext == "jpeg" {
      JpegTypesAgree(ext);
    } else if ext == "gif" {
      GifTypesAgree(ext);
    } else if ext == "mp4" {
      Mp4TypesAgree(ext);
    } else if ext == "mov" {
      MovTypesDiffer(ext);
    } else {
      Mp3TypesDiffer(ext);
    }
  }
}
